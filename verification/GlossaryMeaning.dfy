/**
  The automatic links of a page, read off the hits and the text alone: which hits become
  links, in what order of preference, and what stands where in a linked node.
*/
module GlossaryMeaning {
  import opened Basics
  import Sorting
  import opened Glossary

  /** The links and markers of every node, as the page shows them. */
  function Local(nodes: seq<Node>, hits: seq<Hit>): (local: seq<seq<Match>>)
    requires forall h <- hits :: h.order < |nodes|
    ensures |local| == |nodes|
  {
    RankedMeaning(nodes, hits);
    Choose(nodes, Ranked(nodes, hits)).local
  }

  /** The link a hit would become. */
  function LinkOf(h: Hit): Match {
    Match(h.start, h.end, h.id, h.term, None)
  }

  /** At least as good: a longer name, or an earlier place, or at the same place no higher term id. */
  predicate NoWorse(g: Hit, h: Hit) {
    if g.length != h.length then g.length > h.length
    else if g.order != h.order then g.order < h.order
    else if g.start != h.start then g.start < h.start
    else g.id <= h.id
  }

  lemma NoWorseMeaning(g: Hit, h: Hit)
    ensures !Earlier(h, g) <==> NoWorse(g, h)
  {
  }

  /** The hit shares no character with a marker of its node. */
  ghost predicate ClearOf(nodes: seq<Node>, h: Hit)
    requires h.order < |nodes|
  {
    forall m <- nodes[h.order].marks :: h.end <= m.start || m.end <= h.start
  }

  /** Candidates come in order of preference: by length, node, place and term id. */
  lemma PreferenceMeaning(nodes: seq<Node>, hits: seq<Hit>, i: nat, j: nat)
    requires (forall h <- hits :: h.order < |nodes|) && i < j < |Ranked(nodes, hits)|
    ensures NoWorse(Ranked(nodes, hits)[i], Ranked(nodes, hits)[j])
  {
    hide Ranked;
    RankedMeaning(nodes, hits);
    NoWorseMeaning(Ranked(nodes, hits)[i], Ranked(nodes, hits)[j]);
  }

  /** Why hit `h` was not linked: hit `g` was, is no worse, and has the same term or a character in common. */
  ghost predicate GivesWayTo(nodes: seq<Node>, hits: seq<Hit>, h: Hit, g: Hit)
    requires forall x <- hits :: x.order < |nodes|
  {
    g in hits && LinkOf(g) in Local(nodes, hits)[g.order] && NoWorse(g, h) &&
    (g.id == h.id || (g.order == h.order && g.start < h.end && h.start < g.end))
  }

  /** Every hit touches a marker, is linked as it stands, or gives way to a linked hit that is no worse. */
  lemma EveryHitHasItsReason(nodes: seq<Node>, hits: seq<Hit>, h: Hit)
    requires (forall x <- hits :: x.order < |nodes|) && h in hits
    ensures !ClearOf(nodes, h) || LinkOf(h) in Local(nodes, hits)[h.order] || exists g :: GivesWayTo(nodes, hits, h, g)
  {
    hide Picked, Choose, Ranked, Earlier, NoWorse;
    var ranked := Ranked(nodes, hits);
    RankedMeaning(nodes, hits);
    EveryHitIsAccountedFor(nodes, hits, h);
    if ClearOf(nodes, h) && LinkOf(h) !in Local(nodes, hits)[h.order] {
      assert !Clashes(nodes[h.order].marks, h.start, h.end);
      var j: nat :| j < |ranked| && Picked(nodes, ranked, j) && !Earlier(h, ranked[j]) &&
                    (ranked[j].id == h.id || Cross(h, ranked[j]));
      var g := ranked[j];
      assert g in ranked;
      LocalMeaning(nodes, ranked, g.order, Linked(g));
      assert Gives(nodes, ranked, j, g.order, Linked(g));
      NoWorseMeaning(g, h);
      assert GivesWayTo(nodes, hits, h, g);
    }
  }

  /** Nothing else is linked: every link is a hit of its node, clear of the markers, and the only one of its term. */
  lemma EveryLinkIsAHit(nodes: seq<Node>, hits: seq<Hit>, o: nat, m: Match)
    requires (forall x <- hits :: x.order < |nodes|) && o < |nodes| && m in Local(nodes, hits)[o]
    ensures m in nodes[o].marks ||
            exists h <- hits :: h.order == o && m == LinkOf(h) && ClearOf(nodes, h)
  {
    hide Picked, Choose, Ranked;
    var ranked := Ranked(nodes, hits);
    RankedMeaning(nodes, hits);
    LocalMeaning(nodes, ranked, o, m);
    if m !in nodes[o].marks {
      var i: nat :| i < |ranked| && Gives(nodes, ranked, i, o, m);
      var h := ranked[i];
      assert h in ranked && h in hits && m == LinkOf(h);
      assert ClearOf(nodes, h) by { Unclashed(nodes[o].marks, h); }
    }
  }

  lemma Unclashed(marks: seq<Match>, h: Hit)
    requires !Clashes(marks, h.start, h.end)
    ensures forall m <- marks :: h.end <= m.start || m.end <= h.start
  {
  }

  // ----- what stands where

  /** The places of a node's text where match `i` of a chain ends and the next begins. */
  function EndBefore(position: nat, s: seq<Match>, i: nat): nat
    requires i <= |s|
  {
    if i == 0 then position else s[i - 1].end
  }

  /** The first match of a chain, in the text. */
  lemma FirstPieces(data: string, position: nat, s: seq<Match>)
    requires Chain(data, position, s) && s != []
    ensures position <= s[0].start < s[0].end <= |data|
    ensures Pieces(data, position, s) ==
            [Plain(data[position..s[0].start]),
             Anchor(if s[0].shown.Some? then s[0].shown.value else data[s[0].start..s[0].end], s[0].term)] +
            Pieces(data, s[0].end, s[1..])
  {
    HeadOfChain(data, position, s);
  }

  /** Text before match `i`, or behind the last one. */
  function TextBefore(data: string, position: nat, s: seq<Match>, i: nat): string
    requires i <= |s| && EndBefore(position, s, i) <= (if i < |s| then s[i].start else |data|) <= |data|
  {
    data[EndBefore(position, s, i)..if i < |s| then s[i].start else |data|]
  }

  function AnchorOf(data: string, m: Match): Piece
    requires m.start <= m.end <= |data|
  {
    Anchor(if m.shown.Some? then m.shown.value else data[m.start..m.end], m.term)
  }

  lemma Shifted<T>(a: T, b: T, rest: seq<T>, i: nat)
    requires i < |rest|
    ensures |[a, b] + rest| == |rest| + 2 && ([a, b] + rest)[i + 2] == rest[i]
  {
  }

  /** Piece `2 * i` of a node is the text before match `i`, the next one its anchor. */
  ghost predicate PieceAt(data: string, position: nat, s: seq<Match>, pieces: seq<Piece>, i: nat) {
    |pieces| == 2 * |s| + 1 && i <= |s| &&
    EndBefore(position, s, i) <= (if i < |s| then s[i].start else |data|) <= |data| &&
    pieces[2 * i] == Plain(TextBefore(data, position, s, i)) &&
    (i < |s| ==> s[i].start < s[i].end <= |data| && pieces[2 * i + 1] == AnchorOf(data, s[i]))
  }

  lemma NextPiece(data: string, position: nat, s: seq<Match>, rest: seq<Piece>, first: Piece, second: Piece, i: nat)
    requires s != [] && 0 < i <= |s| && PieceAt(data, s[0].end, s[1..], rest, i - 1)
    ensures PieceAt(data, position, s, [first, second] + rest, i)
  {
    hide TextBefore, AnchorOf;
    assert EndBefore(s[0].end, s[1..], i - 1) == EndBefore(position, s, i);
    SameText(data, position, s, i);
    Shifted(first, second, rest, 2 * i - 2);
    if i < |s| { Shifted(first, second, rest, 2 * i - 1); }
  }

  lemma LeadingPiece(data: string, position: nat, s: seq<Match>, rest: seq<Piece>)
    requires s != [] && position <= s[0].start < s[0].end <= |data| && |rest| == 2 * |s| - 1
    ensures PieceAt(data, position, s, [Plain(data[position..s[0].start]), AnchorOf(data, s[0])] + rest, 0)
  {
  }

  /** One anchor for each match, with its label or its own text and its term; the text between them in between. */
  lemma {:induction false} PiecesExactly(data: string, position: nat, s: seq<Match>, i: nat)
    requires Chain(data, position, s) && i <= |s|
    ensures PieceAt(data, position, s, Pieces(data, position, s), i)
    decreases |s|
  {
    if s == [] {
      assert Pieces(data, position, s) == [Plain(Slice(data, position, |data|))];
      assert Slice(data, position, |data|) == data[position..|data|];
    } else {
      FirstPieces(data, position, s);
      ChainRest(data, position, s);
      hide Chain, Pieces, PieceAt;
      var rest := Pieces(data, s[0].end, s[1..]);
      PiecesExactly(data, s[0].end, s[1..], if i > 0 then i - 1 else 0);
      if i == 0 {
        PieceCount(data, s[0].end, s[1..], rest);
        LeadingPiece(data, position, s, rest);
      } else {
        NextPiece(data, position, s, rest, Plain(data[position..s[0].start]), AnchorOf(data, s[0]), i);
      }
    }
  }

  lemma PieceCount(data: string, position: nat, s: seq<Match>, pieces: seq<Piece>)
    requires PieceAt(data, position, s, pieces, 0)
    ensures |pieces| == 2 * |s| + 1
  {
  }

  lemma SameText(data: string, position: nat, s: seq<Match>, i: nat)
    requires s != [] && 0 < i <= |s| && EndBefore(position, s, i) <= (if i < |s| then s[i].start else |data|) <= |data|
    ensures EndBefore(s[0].end, s[1..], i - 1) == EndBefore(position, s, i)
    ensures TextBefore(data, s[0].end, s[1..], i - 1) == TextBefore(data, position, s, i)
  {
  }

  /**
    What a node shows, in document order: for each marker its label, for each link the text it covers, both under
    their terms, and the untouched text between them.
  */
  lemma NodeExactly(nodes: seq<Node>, hits: seq<Hit>, o: nat, i: nat)
    requires GoodInput(nodes, hits) && o < |nodes|
    requires i <= |Sorting.Sort(Local(nodes, hits)[o], ByStart())|
    ensures var s, data := Sorting.Sort(Local(nodes, hits)[o], ByStart()), nodes[o].data;
            Chain(data, 0, s) && (forall m :: m in s <==> m in Local(nodes, hits)[o]) &&
            |Pieces(data, 0, s)| == 2 * |s| + 1 &&
            EndBefore(0, s, i) <= (if i < |s| then s[i].start else |data|) <= |data| &&
            Pieces(data, 0, s)[2 * i] == Plain(data[EndBefore(0, s, i)..if i < |s| then s[i].start else |data|]) &&
            (i < |s| ==>
               s[i].start < s[i].end <= |data| &&
               Pieces(data, 0, s)[2 * i + 1] ==
               Anchor(if s[i].shown.Some? then s[i].shown.value else data[s[i].start..s[i].end], s[i].term))
  {
    hide Choose, Ranked, Apart, Chain, Pieces, GoodNode, Ascending;
    RankedMeaning(nodes, hits);
    var ranked := Ranked(nodes, hits);
    assert forall h <- ranked :: GoodHit(nodes, h);
    ChosenAreApart(nodes, ranked, o);
    SortedChain(nodes[o].data, Local(nodes, hits)[o]);
    PiecesExactly(nodes[o].data, 0, Sorting.Sort(Local(nodes, hits)[o], ByStart()), i);
  }
}
