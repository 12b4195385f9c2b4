/**
  The update round of the service worker: a vote-and-commit protocol that ends in
  an irreversible skipWaiting(). One event is one message, timer or answered await;
  the environment chooses every roster lookup and every interleaving.
*/
module UpdateRound {
  import opened Basics

  datatype Client = Client(id: string, url: string)

  datatype Vote = Vote(safe: bool, revision: string)

  /** Where the round's asynchronous check stands; `checking` is `phase != Idle`. */
  datatype Phase =
    | Idle
    | FirstLookup   // awaiting the first roster lookup
    | FinalLookup   // awaiting the last roster lookup
    | Skipping      // awaiting skipWaiting()
    | Returned      // the check has returned, its finally block has not run

  datatype Round = Round(
    roster: map<string, string>,
    firstRevisions: map<string, string>,
    votes: map<string, Vote>,
    started: bool,
    phase: Phase,
    checkAgain: bool,
    deadline: bool)

  /** The activate handler: awaiting clean-up, awaiting the last lookup, finished. */
  datatype Activation = NotActivated | Cleaning | Notifying(nonce: nat) | Activated(cause: Option<nat>)

  /**
    Rounds are numbered by their nonce in order of creation; `skips` records every
    call of skipWaiting().
  */
  datatype State = State(
    rounds: seq<Round>,
    current: Option<nat>,
    intent: Option<nat>,
    ports: map<string, string>,
    preparing: multiset<Client>,
    activation: Activation,
    skips: seq<nat>)

  datatype Lookup = Failed | Clients(list: seq<Client>)

  /**
    `Voted` names a round when its worker, release and nonce are those of that
    round and the message carries a boolean and a non-empty revision; otherwise None.
  */
  datatype Event =
    | Connected(client: Client)
    | Reconciled(lookup: Lookup)
    | PortLost(id: string)
    | PrepareAsked(client: Client, hasPort: bool)
    | PrepareAnswered(client: Client, lookup: Lookup)
    | Voted(client: Client, round: Option<nat>, vote: Vote)
    | FirstAnswered(nonce: nat, lookup: Lookup)
    | FinalAnswered(nonce: nat, lookup: Lookup)
    | SkipResolved(nonce: nat)
    | SkipRejected(nonce: nat)
    | CheckSettled(nonce: nat)
    | DeadlineFired(nonce: nat)
    | ActivateBegun
    | ActivateCleaned
    | ActivateNotified(lookup: Lookup)

  const INITIAL := State([], None, None, map[], multiset{}, NotActivated, [])

  // ----- rosters

  /** Browsers give every window client its own id. */
  ghost predicate DistinctIds(clients: seq<Client>) {
    forall i, j :: 0 <= i < j < |clients| ==> clients[i].id != clients[j].id
  }

  ghost predicate WellFormed(lookup: Lookup) {
    lookup.Clients? ==> DistinctIds(lookup.list)
  }

  /** `new Map(clients.map(c => [c.id, c.url]))`: the last entry of an id wins. */
  function RosterOf(clients: seq<Client>): map<string, string> {
    if clients == [] then map[]
    else RosterOf(clients[..|clients| - 1])[clients[|clients| - 1].id := clients[|clients| - 1].url]
  }

  predicate SameRoster(roster: map<string, string>, clients: seq<Client>) {
    |clients| == |roster| &&
    forall c <- clients :: c.id in roster && roster[c.id] == c.url
  }

  ghost predicate HasId(clients: seq<Client>, id: string) {
    exists c <- clients :: c.id == id
  }

  lemma HasIdAppend(init: seq<Client>, last: Client, id: string)
    ensures HasId(init + [last], id) <==> HasId(init, id) || last.id == id
  {
    if last.id == id {
      assert last in init + [last];
    } else if c :| c in init && c.id == id {
      assert c in init + [last];
    }
  }

  lemma LastIsNew(clients: seq<Client>)
    requires DistinctIds(clients) && clients != []
    ensures DistinctIds(clients[..|clients| - 1]) && !HasId(clients[..|clients| - 1], clients[|clients| - 1].id)
  {
  }

  lemma {:induction false} RosterOfMeaning(clients: seq<Client>)
    requires DistinctIds(clients)
    ensures forall c <- clients :: c.id in RosterOf(clients) && RosterOf(clients)[c.id] == c.url
    ensures forall id <- RosterOf(clients) :: HasId(clients, id)
    ensures |RosterOf(clients)| == |clients|
  {
    if clients != [] {
      hide DistinctIds, HasId;
      var init, last := clients[..|clients| - 1], clients[|clients| - 1];
      LastIsNew(clients);
      RosterOfMeaning(init);
      assert clients == init + [last];
      forall id | id in RosterOf(clients) ensures HasId(clients, id) { HasIdAppend(init, last, id); }
      forall c | c in init ensures c.id != last.id { Listed(init, c); }
    }
  }

  lemma Listed(clients: seq<Client>, c: Client)
    requires c in clients
    ensures HasId(clients, c.id)
  {
  }

  /** The loop over lengths and urls decides equality of the two rosters as maps. */
  lemma SameRosterIsEquality(roster: map<string, string>, clients: seq<Client>)
    requires DistinctIds(clients)
    ensures SameRoster(roster, clients) <==> roster == RosterOf(clients)
  {
    RosterOfMeaning(clients);
    var seen := RosterOf(clients);
    if SameRoster(roster, clients) {
      assert seen.Keys <= roster.Keys;
      assert |seen.Keys| == |roster.Keys|;
      SubsetOfSameSize(seen.Keys, roster.Keys);
    }
  }

  lemma SubsetOfSameSize<T>(a: set<T>, b: set<T>)
    requires a <= b && |a| == |b|
    ensures a == b
  {
    assert |b - a| == |b| - |a|;
  }

  // ----- one event

  predicate Bounded(s: State) {
    s.current.Some? ==> s.current.value < |s.rounds|
  }

  /** `scopedClients` forgets the port of every client that is gone or has moved. */
  function Prune(ports: map<string, string>, lookup: Lookup): map<string, string> {
    if lookup.Failed? then ports
    else map id | id in ports && Client(id, ports[id]) in lookup.list :: ports[id]
  }

  predicate VotedSafely(r: Round, id: string) {
    id in r.votes && r.votes[id].safe && id in r.firstRevisions && r.votes[id].revision == r.firstRevisions[id]
  }

  /** Every client of the frozen roster holds a safe vote at its first revision. */
  predicate Consented(r: Round) {
    forall id <- r.roster :: VotedSafely(r, id)
  }

  function SetPhase(s: State, n: nat, phase: Phase): State
    requires n < |s.rounds|
  {
    s.(rounds := s.rounds[n := s.rounds[n].(phase := phase)])
  }

  function Defer(s: State, n: nat): State
    requires n < |s.rounds|
  {
    if s.current != Some(n) then s
    else s.(current := None, rounds := s.rounds[n := s.rounds[n].(deadline := false)], ports := map[])
  }

  function Schedule(s: State, n: nat): State
    requires n < |s.rounds|
  {
    var r := s.rounds[n];
    if s.current != Some(n) || r.started then s
    else if r.phase != Idle then s.(rounds := s.rounds[n := r.(checkAgain := true)])
    else SetPhase(s, n, FirstLookup)
  }

  function Connect(s: State, c: Client): State
    requires Bounded(s)
  {
    var rounds :=
      if s.current.Some? && !s.rounds[s.current.value].started then
        var r := s.rounds[s.current.value];
        s.rounds[s.current.value := r.(votes := r.votes - {c.id})]
      else s.rounds;
    s.(rounds := rounds, ports := s.ports[c.id := c.url])
  }

  predicate Attached(s: State, c: Client) {
    c.id in s.ports && s.ports[c.id] == c.url
  }

  function PrepareAsk(s: State, c: Client, hasPort: bool): State
    requires Bounded(s)
  {
    var t := if hasPort then Connect(s, c) else s;
    if !Attached(t, c) || t.current.Some? then t
    else t.(preparing := t.preparing + multiset{c})
  }

  function PrepareAnswer(s: State, c: Client, lookup: Lookup): State {
    var t := s.(preparing := s.preparing - multiset{c}, ports := Prune(s.ports, lookup));
    if t.current.Some? || lookup.Failed? || !(exists d <- lookup.list :: d.id == c.id) then t
    else
      var r := Round(RosterOf(lookup.list), map[], map[], false, Idle, false, true);
      t.(rounds := t.rounds + [r], current := Some(|t.rounds|))
  }

  /** The message reaches `acceptSafetyVote` and passes its guard. */
  predicate Accepts(s: State, c: Client, round: Option<nat>)
    requires Bounded(s)
  {
    Attached(s, c) && s.current.Some? && round == s.current &&
    !s.rounds[s.current.value].started && c.id in s.rounds[s.current.value].roster
  }

  function AcceptVote(s: State, c: Client, round: Option<nat>, vote: Vote): State
    requires Bounded(s)
  {
    if !Accepts(s, c, round) then s
    else
      var n := s.current.value;
      var r := s.rounds[n];
      if c.id in r.firstRevisions && r.firstRevisions[c.id] != vote.revision then Defer(s, n)
      else
        var r' := r.(firstRevisions := r.firstRevisions[c.id := vote.revision], votes := r.votes[c.id := vote]);
        Schedule(s.(rounds := s.rounds[n := r']), n)
  }

  predicate ConsentOf(r: Round, clients: seq<Client>) {
    forall c <- clients :: VotedSafely(r, c.id)
  }

  function FirstAnswer(s: State, n: nat, lookup: Lookup): (t: State)
    requires n < |s.rounds|
    ensures |t.rounds| == |s.rounds|
  {
    var t := s.(ports := Prune(s.ports, lookup));
    if t.current != Some(n) || t.rounds[n].started then SetPhase(t, n, Returned)
    else if lookup.Failed? || !SameRoster(t.rounds[n].roster, lookup.list) then SetPhase(Defer(t, n), n, Returned)
    else if !ConsentOf(t.rounds[n], lookup.list) then SetPhase(t, n, Returned)
    else SetPhase(t, n, FinalLookup)
  }

  function FinalAnswer(s: State, n: nat, lookup: Lookup): (t: State)
    requires n < |s.rounds|
    ensures |t.rounds| == |s.rounds|
  {
    var t := s.(ports := Prune(s.ports, lookup));
    if t.current != Some(n) || t.rounds[n].started then SetPhase(t, n, Returned)
    else if lookup.Failed? || !SameRoster(t.rounds[n].roster, lookup.list) then SetPhase(Defer(t, n), n, Returned)
    else if !ConsentOf(t.rounds[n], lookup.list) then SetPhase(t, n, Returned)
    else Commit(t, n)
  }

  /** The irreversible boundary. */
  function Commit(s: State, n: nat): State
    requires n < |s.rounds|
  {
    var r := s.rounds[n].(started := true, deadline := false, phase := Skipping);
    s.(rounds := s.rounds[n := r], intent := Some(n), skips := s.skips + [n])
  }

  function SettleCheck(s: State, n: nat): State
    requires n < |s.rounds|
  {
    var r := s.rounds[n];
    if r.checkAgain then Schedule(s.(rounds := s.rounds[n := r.(phase := Idle, checkAgain := false)]), n)
    else SetPhase(s, n, Idle)
  }

  ghost predicate Enabled(s: State, e: Event) {
    Bounded(s) &&
    match e
    case Connected(_) => true
    case Reconciled(lookup) => WellFormed(lookup)
    case PortLost(_) => true
    case PrepareAsked(_, _) => true
    case PrepareAnswered(c, lookup) => c in s.preparing && WellFormed(lookup)
    case Voted(_, _, _) => true
    case FirstAnswered(n, lookup) => n < |s.rounds| && s.rounds[n].phase == FirstLookup && WellFormed(lookup)
    case FinalAnswered(n, lookup) => n < |s.rounds| && s.rounds[n].phase == FinalLookup && WellFormed(lookup)
    case SkipResolved(n) => n < |s.rounds| && s.rounds[n].phase == Skipping
    // a skipWaiting() that leads to activation does not also reject
    case SkipRejected(n) =>
      n < |s.rounds| && s.rounds[n].phase == Skipping &&
      (s.activation == NotActivated || (s.activation.Activated? && s.activation.cause != Some(n)))
    case CheckSettled(n) => n < |s.rounds| && s.rounds[n].phase == Returned
    case DeadlineFired(n) => n < |s.rounds| && s.rounds[n].deadline
    case ActivateBegun => s.activation == NotActivated
    case ActivateCleaned => s.activation == Cleaning
    case ActivateNotified(lookup) => s.activation.Notifying? && WellFormed(lookup)
  }

  function Step(s: State, e: Event): State
    requires Enabled(s, e)
  {
    match e
    case Connected(c) => Connect(s, c)
    case Reconciled(lookup) => s.(ports := Prune(s.ports, lookup))
    case PortLost(id) => s.(ports := s.ports - {id})
    case PrepareAsked(c, hasPort) => PrepareAsk(s, c, hasPort)
    case PrepareAnswered(c, lookup) => PrepareAnswer(s, c, lookup)
    case Voted(c, round, vote) => AcceptVote(s, c, round, vote)
    case FirstAnswered(n, lookup) => FirstAnswer(s, n, lookup)
    case FinalAnswered(n, lookup) => FinalAnswer(s, n, lookup)
    case SkipResolved(n) => SetPhase(s, n, Returned)
    case SkipRejected(n) => SetPhase(s.(current := None, intent := None, ports := map[]), n, Returned)
    case CheckSettled(n) => SettleCheck(s, n)
    case DeadlineFired(n) =>
      Defer(s.(rounds := s.rounds[n := s.rounds[n].(deadline := false)]), n)
    case ActivateBegun => s.(activation := Cleaning)
    case ActivateCleaned =>
      s.(activation := if s.intent.Some? then Notifying(s.intent.value) else Activated(None))
    case ActivateNotified(_) =>
      s.(activation := Activated(Some(s.activation.nonce)), current := None, intent := None, ports := map[])
  }

  // ----- invariants

  ghost predicate RoundInv(r: Round) {
    r.roster != map[] &&
    (forall id <- r.votes :: id in r.firstRevisions && r.votes[id].revision == r.firstRevisions[id]) &&
    (r.phase == Idle ==> !r.checkAgain) &&
    (r.phase == Skipping ==> r.started) &&
    (r.phase in {FirstLookup, FinalLookup} ==> !r.started)
  }

  /** No lost wake-up: an idle or just-returned check left somebody unconvinced. */
  ghost predicate Watched(r: Round) {
    (r.phase == Idle || (r.phase == Returned && !r.checkAgain)) ==> !Consented(r)
  }

  ghost predicate Inv(s: State) {
    (forall i :: 0 <= i < |s.rounds| ==> RoundInv(s.rounds[i])) &&
    (s.current.Some? ==>
       s.current.value < |s.rounds| &&
       (!s.rounds[s.current.value].started ==> Watched(s.rounds[s.current.value])) &&
       (s.rounds[s.current.value].started <==> s.intent == s.current)) &&
    (s.intent.Some? ==> s.intent == s.current) &&
    (forall i :: 0 <= i < |s.rounds| && s.rounds[i].phase == Skipping && s.activation != Activated(Some(i)) ==>
       s.current == Some(i)) &&
    (s.activation.Notifying? ==> s.intent == Some(s.activation.nonce)) &&
    NoDup(s.skips) &&
    (forall n: nat :: n in s.skips <==> n < |s.rounds| && s.rounds[n].started) &&
    (forall i :: 0 <= i < |s.rounds| && s.rounds[i].started ==> !s.rounds[i].deadline)
  }

  lemma ConsentOfRoster(r: Round, clients: seq<Client>)
    requires DistinctIds(clients) && SameRoster(r.roster, clients)
    ensures ConsentOf(r, clients) <==> Consented(r)
  {
    SameRosterIsEquality(r.roster, clients);
    RosterOfMeaning(clients);
  }

  lemma PortEventKeepsInv(s: State, e: Event)
    requires Inv(s) && Enabled(s, e)
    requires e.Connected? || e.Reconciled? || e.PortLost? || e.PrepareAsked?
    ensures Inv(Step(s, e))
  {
  }

  lemma NewRoundKeepsInv(s: State, r: Round)
    requires Inv(s) && s.current.None? && RoundInv(r) && Watched(r) && !r.started && r.phase == Idle
    ensures Inv(s.(rounds := s.rounds + [r], current := Some(|s.rounds|)))
  {
    hide RoundInv, Watched, NoDup;
  }

  lemma NewRoundIsWatched(clients: seq<Client>)
    requires DistinctIds(clients) && clients != []
    ensures var r := Round(RosterOf(clients), map[], map[], false, Idle, false, true); RoundInv(r) && Watched(r)
  {
    hide RosterOf;
    RosterOfMeaning(clients);
    assert clients[0] in clients;
    assert clients[0].id in RosterOf(clients);
  }

  lemma PrepareAnswerKeepsInv(s: State, c: Client, lookup: Lookup)
    requires Inv(s) && WellFormed(lookup)
    ensures Inv(PrepareAnswer(s, c, lookup))
  {
    hide RosterOf, Prune, RoundInv, Watched;
    var t := s.(preparing := s.preparing - multiset{c}, ports := Prune(s.ports, lookup));
    assert Inv(t);
    if t.current.None? && lookup.Clients? && exists d <- lookup.list :: d.id == c.id {
      var r := Round(RosterOf(lookup.list), map[], map[], false, Idle, false, true);
      NewRoundIsWatched(lookup.list);
      hide Inv;
      NewRoundKeepsInv(t, r);
    }
  }

  /** One round may change in its votes, and in a phase that has not started anything. */
  lemma RoundChangeKeepsInv(s: State, n: nat, r: Round)
    requires Inv(s) && n < |s.rounds| && RoundInv(r)
    requires r.started == s.rounds[n].started && r.deadline == s.rounds[n].deadline
    requires r.phase == Skipping ==> s.rounds[n].phase == Skipping
    requires s.current == Some(n) && !r.started ==> Watched(r)
    ensures Inv(s.(rounds := s.rounds[n := r]))
  {
    hide RoundInv, Watched, NoDup;
  }

  lemma DeferKeepsInv(s: State, n: nat)
    requires Inv(s) && n < |s.rounds| && !s.rounds[n].started
    ensures Inv(Defer(s, n))
  {
    hide Watched, NoDup;
  }

  /** The round after an accepted vote and the check it asks for. */
  function Voting(r: Round, id: string, vote: Vote): Round {
    var voted := r.(firstRevisions := r.firstRevisions[id := vote.revision], votes := r.votes[id := vote]);
    if r.phase != Idle then voted.(checkAgain := true) else voted.(phase := FirstLookup)
  }

  lemma VotingKeepsRound(r: Round, id: string, vote: Vote)
    requires RoundInv(r) && !r.started && (id in r.firstRevisions ==> r.firstRevisions[id] == vote.revision)
    ensures RoundInv(Voting(r, id, vote)) && Watched(Voting(r, id, vote))
  {
    hide Consented;
  }

  lemma VoteKeepsInv(s: State, c: Client, round: Option<nat>, vote: Vote)
    requires Inv(s)
    ensures Inv(AcceptVote(s, c, round, vote))
  {
    if Accepts(s, c, round) {
      hide Inv, RoundInv, Watched, Accepts;
      var n := s.current.value;
      var r := OpenRound(s, c, round);
      if c.id in r.firstRevisions && r.firstRevisions[c.id] != vote.revision {
        DeferKeepsInv(s, n);
      } else {
        VotingKeepsRound(r, c.id, vote);
        var voted := r.(firstRevisions := r.firstRevisions[c.id := vote.revision], votes := r.votes[c.id := vote]);
        assert s.rounds[n := voted][n := Voting(r, c.id, vote)] == s.rounds[n := Voting(r, c.id, vote)];
        RoundChangeKeepsInv(s, n, Voting(r, c.id, vote));
      }
    }
  }

  lemma OpenRound(s: State, c: Client, round: Option<nat>) returns (r: Round)
    requires Inv(s) && Accepts(s, c, round)
    ensures s.current.Some? && s.current.value < |s.rounds| && r == s.rounds[s.current.value] && !r.started && RoundInv(r)
  {
    hide Watched;
    r := s.rounds[s.current.value];
  }

  lemma PortsKeepInv(s: State, ports: map<string, string>)
    requires Inv(s)
    ensures Inv(s.(ports := ports))
  {
    hide RoundInv, Watched;
  }

  predicate Looking(s: State, n: nat) {
    n < |s.rounds| && s.rounds[n].phase in {FirstLookup, FinalLookup}
  }

  lemma LookingIsUnstarted(s: State, n: nat)
    requires Inv(s) && Looking(s, n)
    ensures !s.rounds[n].started
  {
    assert RoundInv(s.rounds[n]);
  }

  /** A check that returns leaves an unconvinced roster behind, or a round that is no longer current. */
  lemma ReturnKeepsInv(s: State, n: nat)
    requires Inv(s) && Looking(s, n) && (s.current == Some(n) ==> !Consented(s.rounds[n]))
    ensures Inv(SetPhase(s, n, Returned))
  {
  }

  lemma GiveUpKeepsInv(s: State, n: nat)
    requires Inv(s) && Looking(s, n)
    ensures Inv(SetPhase(Defer(s, n), n, Returned))
  {
    hide Consented;
  }

  lemma AdvanceKeepsInv(s: State, n: nat)
    requires Inv(s) && Looking(s, n)
    ensures Inv(SetPhase(s, n, FinalLookup))
  {
    hide Consented;
  }

  lemma CommitKeepsInv(s: State, n: nat)
    requires Inv(s) && Looking(s, n) && s.current == Some(n)
    ensures Inv(Commit(s, n))
  {
    hide Consented;
  }

  lemma FirstAnswerKeepsInv(s: State, n: nat, lookup: Lookup)
    requires Inv(s) && Enabled(s, FirstAnswered(n, lookup))
    ensures Inv(FirstAnswer(s, n, lookup))
  {
    hide Inv, Consented, ConsentOf, SameRoster, Prune, SetPhase, Defer;
    var t := s.(ports := Prune(s.ports, lookup));
    PortsKeepInv(s, Prune(s.ports, lookup));
    LookingIsUnstarted(t, n);
    if t.current != Some(n) {
      ReturnKeepsInv(t, n);
    } else if lookup.Failed? || !SameRoster(t.rounds[n].roster, lookup.list) {
      GiveUpKeepsInv(t, n);
    } else {
      ConsentOfRoster(t.rounds[n], lookup.list);
      if ConsentOf(t.rounds[n], lookup.list) { AdvanceKeepsInv(t, n); } else { ReturnKeepsInv(t, n); }
    }
  }

  lemma FinalAnswerKeepsInv(s: State, n: nat, lookup: Lookup)
    requires Inv(s) && Enabled(s, FinalAnswered(n, lookup))
    ensures Inv(FinalAnswer(s, n, lookup))
  {
    hide Inv, Consented, ConsentOf, SameRoster, Prune, Commit, SetPhase, Defer;
    var t := s.(ports := Prune(s.ports, lookup));
    PortsKeepInv(s, Prune(s.ports, lookup));
    LookingIsUnstarted(t, n);
    if t.current != Some(n) {
      ReturnKeepsInv(t, n);
    } else if lookup.Failed? || !SameRoster(t.rounds[n].roster, lookup.list) {
      GiveUpKeepsInv(t, n);
    } else {
      ConsentOfRoster(t.rounds[n], lookup.list);
      if ConsentOf(t.rounds[n], lookup.list) { CommitKeepsInv(t, n); } else { ReturnKeepsInv(t, n); }
    }
  }

  /** Nothing asked again meanwhile: the check ends. */
  lemma RestKeepsInv(s: State, n: nat)
    requires Inv(s) && n < |s.rounds| && s.rounds[n].phase == Returned && !s.rounds[n].checkAgain
    ensures Inv(SetPhase(s, n, Idle))
  {
  }

  /** A vote or reconnect came in meanwhile: the check starts over. */
  lemma AgainKeepsInv(s: State, n: nat)
    requires Inv(s) && n < |s.rounds| && s.rounds[n].phase == Returned && s.rounds[n].checkAgain
    ensures Inv(Schedule(s.(rounds := s.rounds[n := s.rounds[n].(phase := Idle, checkAgain := false)]), n))
  {
    hide Consented;
  }

  lemma SettleKeepsInv(s: State, n: nat)
    requires Inv(s) && Enabled(s, CheckSettled(n))
    ensures Inv(SettleCheck(s, n))
  {
    hide Inv, Schedule, SetPhase;
    if s.rounds[n].checkAgain { AgainKeepsInv(s, n); } else { RestKeepsInv(s, n); }
  }

  lemma DeadlineKeepsInv(s: State, n: nat)
    requires Inv(s) && Enabled(s, DeadlineFired(n))
    ensures Inv(Step(s, DeadlineFired(n)))
  {
  }

  lemma SkipEndKeepsInv(s: State, e: Event)
    requires Inv(s) && Enabled(s, e)
    requires e.SkipResolved? || e.SkipRejected?
    ensures Inv(Step(s, e))
  {
  }

  lemma ActivationKeepsInv(s: State, e: Event)
    requires Inv(s) && Enabled(s, e)
    requires e.ActivateBegun? || e.ActivateCleaned? || e.ActivateNotified?
    ensures Inv(Step(s, e))
  {
  }

  lemma StepKeepsInv(s: State, e: Event)
    requires Inv(s) && Enabled(s, e)
    ensures Inv(Step(s, e))
  {
    match e {
      case PrepareAnswered(c, lookup) => PrepareAnswerKeepsInv(s, c, lookup);
      case Voted(c, round, vote) => VoteKeepsInv(s, c, round, vote);
      case FirstAnswered(n, lookup) => FirstAnswerKeepsInv(s, n, lookup);
      case FinalAnswered(n, lookup) => FinalAnswerKeepsInv(s, n, lookup);
      case CheckSettled(n) => SettleKeepsInv(s, n);
      case DeadlineFired(n) => DeadlineKeepsInv(s, n);
      case SkipResolved(_) => SkipEndKeepsInv(s, e);
      case SkipRejected(_) => SkipEndKeepsInv(s, e);
      case ActivateBegun => ActivationKeepsInv(s, e);
      case ActivateCleaned => ActivationKeepsInv(s, e);
      case ActivateNotified(_) => ActivationKeepsInv(s, e);
      case _ => PortEventKeepsInv(s, e);
    }
  }

  // ----- whole runs

  /** States and events of one run: `ss[k + 1]` follows `ss[k]` by `es[k]`. */
  ghost predicate Behaviour(ss: seq<State>, es: seq<Event>) {
    |ss| == |es| + 1 && ss[0] == INITIAL && forall k :: 0 <= k < |es| ==> Follows(ss, es, k)
  }

  ghost predicate Follows(ss: seq<State>, es: seq<Event>, k: nat)
    requires k < |es| && k + 1 < |ss|
  {
    Enabled(ss[k], es[k]) && ss[k + 1] == Step(ss[k], es[k])
  }

  lemma {:induction false} BehaviourKeepsInv(ss: seq<State>, es: seq<Event>, k: nat)
    requires Behaviour(ss, es) && k < |ss|
    ensures Inv(ss[k])
  {
    if k > 0 {
      BehaviourKeepsInv(ss, es, k - 1);
      assert Follows(ss, es, k - 1);
      StepKeepsInv(ss[k - 1], es[k - 1]);
    }
  }

  /** The event is a vote of `id` for round `n` that the worker takes. */
  predicate TakesVote(s: State, e: Event, n: nat, id: string)
    requires Bounded(s)
  {
    e.Voted? && e.client.id == id && e.round == Some(n) && Accepts(s, e.client, e.round)
  }

  predicate OpensPort(e: Event, id: string) {
    (e.Connected? && e.client.id == id) || (e.PrepareAsked? && e.hasPort && e.client.id == id)
  }

  /** What a client last said about round `n`; a new connection takes it back. */
  ghost function LastWord(ss: seq<State>, es: seq<Event>, k: nat, n: nat, id: string): Option<Vote>
    requires Behaviour(ss, es) && k <= |es|
  {
    if k == 0 then None
    else
      assert Follows(ss, es, k - 1);
      WordAfter(ss[k - 1], es[k - 1], n, id, LastWord(ss, es, k - 1, n, id))
  }

  function WordAfter(s: State, e: Event, n: nat, id: string, before: Option<Vote>): Option<Vote>
    requires Bounded(s)
  {
    if OpensPort(e, id) then None
    else if TakesVote(s, e, n, id) then Some(e.vote)
    else before
  }

  /** The revision of the first vote a client cast in round `n`. */
  ghost function FirstRevision(ss: seq<State>, es: seq<Event>, k: nat, n: nat, id: string): Option<string>
    requires Behaviour(ss, es) && k <= |es|
  {
    if k == 0 then None
    else
      assert Follows(ss, es, k - 1);
      RevisionAfter(ss[k - 1], es[k - 1], n, id, FirstRevision(ss, es, k - 1, n, id))
  }

  function RevisionAfter(s: State, e: Event, n: nat, id: string, before: Option<string>): Option<string>
    requires Bounded(s)
  {
    if before.None? && TakesVote(s, e, n, id) then Some(e.vote.revision) else before
  }

  function At<V>(m: map<string, V>, id: string): Option<V> {
    if id in m then Some(m[id]) else None
  }

  predicate Open(s: State, n: nat) {
    s.current == Some(n) && n < |s.rounds| && !s.rounds[n].started
  }

  function VoteAt(s: State, n: nat, id: string): Option<Vote> {
    if n < |s.rounds| then At(s.rounds[n].votes, id) else None
  }

  function RevisionAt(s: State, n: nat, id: string): Option<string> {
    if n < |s.rounds| then At(s.rounds[n].firstRevisions, id) else None
  }

  lemma ConnectTracksWords(s: State, c: Client, n: nat, id: string)
    requires Bounded(s)
    ensures |Connect(s, c).rounds| == |s.rounds| && Connect(s, c).current == s.current
    ensures Open(Connect(s, c), n) <==> Open(s, n)
    ensures Open(s, n) ==>
              VoteAt(Connect(s, c), n, id) == (if c.id == id then None else VoteAt(s, n, id)) &&
              RevisionAt(Connect(s, c), n, id) == RevisionAt(s, n, id)
  {
  }

  lemma VoteTracksWords(s: State, c: Client, round: Option<nat>, vote: Vote, n: nat, id: string)
    requires Bounded(s)
    ensures var t, e := AcceptVote(s, c, round, vote), Voted(c, round, vote);
            |t.rounds| == |s.rounds| &&
            (Open(t, n) ==>
               Open(s, n) &&
               VoteAt(t, n, id) == WordAfter(s, e, n, id, VoteAt(s, n, id)) &&
               RevisionAt(t, n, id) == RevisionAfter(s, e, n, id, RevisionAt(s, n, id)))
  {
  }

  lemma FirstTracksWords(s: State, m: nat, lookup: Lookup, n: nat, id: string)
    requires m < |s.rounds|
    ensures var t := FirstAnswer(s, m, lookup);
            Open(t, n) ==> Open(s, n) && VoteAt(t, n, id) == VoteAt(s, n, id) && RevisionAt(t, n, id) == RevisionAt(s, n, id)
  {
    hide Prune, SameRoster, ConsentOf;
  }

  lemma FinalTracksWords(s: State, m: nat, lookup: Lookup, n: nat, id: string)
    requires m < |s.rounds|
    ensures var t := FinalAnswer(s, m, lookup);
            Open(t, n) ==> Open(s, n) && VoteAt(t, n, id) == VoteAt(s, n, id) && RevisionAt(t, n, id) == RevisionAt(s, n, id)
  {
    hide Prune, SameRoster, ConsentOf;
  }

  lemma PrepareTracksWords(s: State, c: Client, lookup: Lookup, n: nat, id: string)
    requires Bounded(s)
    ensures var t := PrepareAnswer(s, c, lookup);
            (n >= |t.rounds| || Open(t, n) ==> n >= |s.rounds| || Open(s, n)) &&
            VoteAt(t, n, id) == VoteAt(s, n, id) && RevisionAt(t, n, id) == RevisionAt(s, n, id)
  {
    hide Prune, RosterOf;
  }

  lemma SettleTracksWords(s: State, m: nat, n: nat, id: string)
    requires Bounded(s) && m < |s.rounds|
    ensures var t := SettleCheck(s, m);
            |t.rounds| == |s.rounds| && (Open(t, n) <==> Open(s, n)) &&
            VoteAt(t, n, id) == VoteAt(s, n, id) && RevisionAt(t, n, id) == RevisionAt(s, n, id)
  {
  }

  /** One event changes the held vote of an open (or future) round as the client's own words do. */
  lemma QuietTracksWords(s: State, e: Event, n: nat, id: string)
    requires Enabled(s, e)
    requires !e.Connected? && !e.PrepareAsked? && !e.Voted? && !e.FirstAnswered? && !e.FinalAnswered?
    requires n >= |Step(s, e).rounds| || Open(Step(s, e), n)
    ensures n >= |s.rounds| || Open(s, n)
    ensures VoteAt(Step(s, e), n, id) == WordAfter(s, e, n, id, VoteAt(s, n, id))
    ensures RevisionAt(Step(s, e), n, id) == RevisionAfter(s, e, n, id, RevisionAt(s, n, id))
  {
    hide Connect, AcceptVote, FirstAnswer, FinalAnswer, Prune, PrepareAsk, PrepareAnswer, SettleCheck;
    match e {
      case PrepareAnswered(c, lookup) => PrepareTracksWords(s, c, lookup, n, id);
      case CheckSettled(m) => SettleTracksWords(s, m, n, id);
      case _ =>
    }
  }

  lemma StepTracksWords(s: State, e: Event, n: nat, id: string)
    requires Enabled(s, e)
    requires n >= |Step(s, e).rounds| || Open(Step(s, e), n)
    ensures n >= |s.rounds| || Open(s, n)
    ensures VoteAt(Step(s, e), n, id) == WordAfter(s, e, n, id, VoteAt(s, n, id))
    ensures RevisionAt(Step(s, e), n, id) == RevisionAfter(s, e, n, id, RevisionAt(s, n, id))
  {
    hide Connect, AcceptVote, FirstAnswer, FinalAnswer, Prune, RosterOf, PrepareAnswer, SettleCheck, Defer, SetPhase;
    match e {
      case Connected(c) => ConnectTracksWords(s, c, n, id);
      case PrepareAsked(c, _) => ConnectTracksWords(s, c, n, id);
      case Voted(c, round, vote) => VoteTracksWords(s, c, round, vote, n, id);
      case FirstAnswered(m, lookup) => FirstTracksWords(s, m, lookup, n, id);
      case FinalAnswered(m, lookup) => FinalTracksWords(s, m, lookup, n, id);
      case _ => QuietTracksWords(s, e, n, id);
    }
  }

  /** The maps of an open round hold exactly what the run said; a future round is unheard of. */
  lemma {:induction false} VotesAreLastWords(ss: seq<State>, es: seq<Event>, k: nat, n: nat, id: string)
    requires Behaviour(ss, es) && k < |ss|
    requires n >= |ss[k].rounds| || Open(ss[k], n)
    ensures LastWord(ss, es, k, n, id) == VoteAt(ss[k], n, id)
    ensures FirstRevision(ss, es, k, n, id) == RevisionAt(ss[k], n, id)
  {
    hide Step, Enabled, WordAfter, RevisionAfter, Inv;
    if k > 0 {
      assert Follows(ss, es, k - 1);
      assert Enabled(ss[k - 1], es[k - 1]) && ss[k] == Step(ss[k - 1], es[k - 1]);
      StepTracksWords(ss[k - 1], es[k - 1], n, id);
      VotesAreLastWords(ss, es, k - 1, n, id);
    }
  }

  // ----- the promises

  /** Roster frozen, first revisions written once, a start never undone. */
  ghost predicate Extends(r: Round, r': Round) {
    r'.roster == r.roster && (r.started ==> r'.started) &&
    forall id <- r.firstRevisions :: id in r'.firstRevisions && r'.firstRevisions[id] == r.firstRevisions[id]
  }

  lemma ConnectExtends(s: State, c: Client, n: nat)
    requires Bounded(s) && n < |s.rounds|
    ensures |Connect(s, c).rounds| == |s.rounds| && Extends(s.rounds[n], Connect(s, c).rounds[n])
  {
  }

  lemma VoteExtends(s: State, c: Client, round: Option<nat>, vote: Vote, n: nat)
    requires Bounded(s) && n < |s.rounds|
    ensures |AcceptVote(s, c, round, vote).rounds| == |s.rounds|
    ensures Extends(s.rounds[n], AcceptVote(s, c, round, vote).rounds[n])
  {
  }

  lemma AnswerExtends(s: State, m: nat, lookup: Lookup, n: nat)
    requires m < |s.rounds| && n < |s.rounds|
    ensures |FirstAnswer(s, m, lookup).rounds| == |FinalAnswer(s, m, lookup).rounds| == |s.rounds|
    ensures Extends(s.rounds[n], FirstAnswer(s, m, lookup).rounds[n])
    ensures Extends(s.rounds[n], FinalAnswer(s, m, lookup).rounds[n])
  {
    hide SameRoster, ConsentOf, Prune;
  }

  lemma SettleExtends(s: State, m: nat, n: nat)
    requires m < |s.rounds| && n < |s.rounds|
    ensures |SettleCheck(s, m).rounds| == |s.rounds| && Extends(s.rounds[n], SettleCheck(s, m).rounds[n])
  {
    hide Consented;
  }

  lemma PrepareExtends(s: State, c: Client, lookup: Lookup, n: nat)
    requires n < |s.rounds|
    ensures n < |PrepareAnswer(s, c, lookup).rounds| && Extends(s.rounds[n], PrepareAnswer(s, c, lookup).rounds[n])
  {
    hide Prune, RosterOf;
  }

  /** The events that only change a phase, a deadline or nothing. */
  lemma QuietExtends(s: State, e: Event, n: nat)
    requires Enabled(s, e) && n < |s.rounds|
    requires e.Reconciled? || e.PortLost? || e.SkipResolved? || e.SkipRejected? || e.DeadlineFired? || e.ActivateBegun? ||
             e.ActivateCleaned? || e.ActivateNotified?
    ensures n < |Step(s, e).rounds| && Extends(s.rounds[n], Step(s, e).rounds[n])
  {
    hide Connect, AcceptVote, FirstAnswer, FinalAnswer, Prune, RosterOf, PrepareAnswer, SettleCheck, PrepareAsk;
  }

  lemma StepExtends(s: State, e: Event, n: nat)
    requires Enabled(s, e) && n < |s.rounds|
    ensures n < |Step(s, e).rounds| && Extends(s.rounds[n], Step(s, e).rounds[n])
  {
    hide Connect, AcceptVote, FirstAnswer, FinalAnswer, Prune, RosterOf, PrepareAnswer, SettleCheck, Extends, Defer, SetPhase;
    match e {
      case Connected(c) => ConnectExtends(s, c, n);
      case PrepareAsked(c, _) => ConnectExtends(s, c, n); SameExtends(s.rounds[n]);
      case PrepareAnswered(c, lookup) => PrepareExtends(s, c, lookup, n);
      case Voted(c, round, vote) => VoteExtends(s, c, round, vote, n);
      case FirstAnswered(m, lookup) => AnswerExtends(s, m, lookup, n);
      case FinalAnswered(m, lookup) => AnswerExtends(s, m, lookup, n);
      case CheckSettled(m) => SettleExtends(s, m, n);
      case _ => QuietExtends(s, e, n);
    }
  }

  lemma SameExtends(r: Round)
    ensures Extends(r, r)
  {
  }

  lemma {:induction false} RoundsOnlyGrow(ss: seq<State>, es: seq<Event>, j: nat, k: nat, n: nat)
    requires Behaviour(ss, es) && j <= k < |ss| && n < |ss[j].rounds|
    ensures n < |ss[k].rounds| && Extends(ss[j].rounds[n], ss[k].rounds[n])
  {
    hide Step, Enabled;
    if j < k {
      RoundsOnlyGrow(ss, es, j, k - 1, n);
      assert Follows(ss, es, k - 1);
      StepExtends(ss[k - 1], es[k - 1], n);
    }
  }

  /** The round an answer, timer or vote belongs to. */
  function Owner(e: Event): Option<nat> {
    match e
    case Voted(_, round, _) => round
    case FirstAnswered(n, _) => Some(n)
    case FinalAnswered(n, _) => Some(n)
    case SkipResolved(n) => Some(n)
    case SkipRejected(n) => Some(n)
    case CheckSettled(n) => Some(n)
    case DeadlineFired(n) => Some(n)
    case _ => None
  }

  lemma VoteStaysHome(s: State, c: Client, round: Option<nat>, vote: Vote, m: nat)
    requires Bounded(s) && m < |s.rounds| && round != Some(m)
    ensures var t := AcceptVote(s, c, round, vote);
            |t.rounds| == |s.rounds| && t.rounds[m] == s.rounds[m] && t.intent == s.intent &&
            (s.current == Some(m) ==> t.current == Some(m))
  {
  }

  lemma AnswerStaysHome(s: State, n: nat, lookup: Lookup, m: nat)
    requires n < |s.rounds| && m < |s.rounds| && n != m
    ensures var t := FirstAnswer(s, n, lookup);
            |t.rounds| == |s.rounds| && t.rounds[m] == s.rounds[m] && t.intent == s.intent &&
            (s.current == Some(m) ==> t.current == Some(m))
    ensures var t := FinalAnswer(s, n, lookup);
            |t.rounds| == |s.rounds| && t.rounds[m] == s.rounds[m] &&
            (s.current == Some(m) ==> t.current == Some(m) && t.intent == s.intent)
  {
    hide Prune, SameRoster, ConsentOf;
  }

  lemma StepStaysHome(s: State, e: Event, m: nat)
    requires Inv(s) && Enabled(s, e) && m < |s.rounds|
    requires Owner(e).Some? && Owner(e) != Some(m)
    ensures |Step(s, e).rounds| == |s.rounds| && Step(s, e).rounds[m] == s.rounds[m]
    ensures s.current == Some(m) ==> Step(s, e).current == Some(m) && Step(s, e).intent == s.intent
  {
    hide Connect, AcceptVote, FirstAnswer, FinalAnswer, Prune, RosterOf, NoDup, RoundInv, Watched;
    match e {
      case Voted(c, round, vote) => VoteStaysHome(s, c, round, vote, m);
      case FirstAnswered(n, lookup) => AnswerStaysHome(s, n, lookup, m);
      case FinalAnswered(n, lookup) => AnswerStaysHome(s, n, lookup, m);
      case _ =>
    }
  }

  /** A deadline, lookup, vote or settled check of one round leaves every other round alone. */
  lemma NoCrossTalk(ss: seq<State>, es: seq<Event>, k: nat, m: nat)
    requires Behaviour(ss, es) && k < |es| && m < |ss[k].rounds|
    requires Owner(es[k]).Some? && Owner(es[k]) != Some(m)
    ensures m < |ss[k + 1].rounds| && ss[k + 1].rounds[m] == ss[k].rounds[m]
    ensures ss[k].current == Some(m) ==> ss[k + 1].current == Some(m) && ss[k + 1].intent == ss[k].intent
  {
    hide Step, Enabled, Inv;
    BehaviourKeepsInv(ss, es, k);
    assert Follows(ss, es, k);
    StepStaysHome(ss[k], es[k], m);
  }

  lemma OnlyLookupsOpen(s: State, e: Event)
    requires Enabled(s, e) && |Step(s, e).rounds| != |s.rounds|
    ensures e.PrepareAnswered? && e.lookup.Clients? && s.current.None?
    ensures |Step(s, e).rounds| == |s.rounds| + 1 && Step(s, e).rounds[|s.rounds|].roster == RosterOf(e.lookup.list)
  {
    hide Connect, AcceptVote, FirstAnswer, FinalAnswer, Prune, RosterOf;
    match e {
      case Connected(c) => ConnectTracksWords(s, c, 0, "");
      case PrepareAsked(c, _) => ConnectTracksWords(s, c, 0, "");
      case Voted(c, round, vote) => VoteTracksWords(s, c, round, vote, 0, "");
      case _ =>
    }
  }

  /** Round `n` began with the event at `j`, which fixed its roster. */
  ghost predicate Opens(ss: seq<State>, es: seq<Event>, j: nat, n: nat)
    requires |ss| == |es| + 1 && j < |es|
  {
    es[j].PrepareAnswered? && es[j].lookup.Clients? && |ss[j].rounds| == n &&
    |ss[j + 1].rounds| == n + 1 && ss[j + 1].rounds[n].roster == RosterOf(es[j].lookup.list)
  }

  lemma {:induction false} OpeningOf(ss: seq<State>, es: seq<Event>, k: nat, n: nat) returns (j: nat)
    requires Behaviour(ss, es) && k < |ss| && n < |ss[k].rounds|
    ensures j < k && Opens(ss, es, j, n) && ss[k].rounds[n].roster == RosterOf(es[j].lookup.list)
  {
    hide Step, Enabled;
    assert k > 0 by { assert ss[0] == INITIAL; }
    assert Follows(ss, es, k - 1);
    if n < |ss[k - 1].rounds| {
      j := OpeningOf(ss, es, k - 1, n);
      StepExtends(ss[k - 1], es[k - 1], n);
    } else {
      OnlyLookupsOpen(ss[k - 1], es[k - 1]);
      j := k - 1;
    }
  }

  lemma OnlyLastAnswersSkip(s: State, e: Event)
    requires Inv(s) && Enabled(s, e) && Step(s, e).skips != s.skips
    ensures e.FinalAnswered? && e.lookup.Clients? && s.current == Some(e.nonce) && e.nonce !in s.skips
    ensures Step(s, e).skips == s.skips + [e.nonce]
    ensures DistinctIds(e.lookup.list)
    ensures SameRoster(s.rounds[e.nonce].roster, e.lookup.list) && ConsentOf(s.rounds[e.nonce], e.lookup.list)
  {
    hide Prune, RosterOf, NoDup, RoundInv, Watched;
  }

  /**
    skipWaiting() is only called by the answer of a last roster lookup, for the
    current round, never twice for one round, when that lookup is the roster the
    round opened with and every client on it last said "safe" at the revision of
    its first vote.
  */
  lemma SkipWaitingIsConsented(ss: seq<State>, es: seq<Event>, k: nat) returns (n: nat, j: nat)
    requires Behaviour(ss, es) && k < |es| && ss[k + 1].skips != ss[k].skips
    ensures n !in ss[k].skips && ss[k + 1].skips == ss[k].skips + [n]
    ensures es[k].FinalAnswered? && es[k].nonce == n && es[k].lookup.Clients? && ss[k].current == Some(n)
    ensures j < k && Opens(ss, es, j, n)
    ensures RosterOf(es[k].lookup.list) == RosterOf(es[j].lookup.list)
    ensures forall c <- es[k].lookup.list ::
              exists revision ::
                FirstRevision(ss, es, k, n, c.id) == Some(revision) &&
                LastWord(ss, es, k, n, c.id) == Some(Vote(true, revision))
  {
    hide Step, Enabled;
    BehaviourKeepsInv(ss, es, k);
    assert Follows(ss, es, k);
    assert Enabled(ss[k], es[k]);
    OnlyLastAnswersSkip(ss[k], es[k]);
    n := es[k].nonce;
    j := OpeningOf(ss, es, k, n);
    SameRosterIsEquality(ss[k].rounds[n].roster, es[k].lookup.list);
    forall c <- es[k].lookup.list
      ensures exists revision ::
                FirstRevision(ss, es, k, n, c.id) == Some(revision) &&
                LastWord(ss, es, k, n, c.id) == Some(Vote(true, revision))
    {
      VotesAreLastWords(ss, es, k, n, c.id);
      assert VotedSafely(ss[k].rounds[n], c.id);
    }
  }

  lemma SkipWaitingAtMostOncePerRound(ss: seq<State>, es: seq<Event>, k: nat)
    requires Behaviour(ss, es) && k < |ss|
    ensures forall i, j :: 0 <= i < j < |ss[k].skips| ==> ss[k].skips[i] != ss[k].skips[j]
  {
    BehaviourKeepsInv(ss, es, k);
  }

  /** With no check running, somebody on the roster has not (or no longer) said "safe". */
  lemma NoLostWakeUp(ss: seq<State>, es: seq<Event>, k: nat, n: nat) returns (id: string)
    requires Behaviour(ss, es) && k < |ss|
    requires Open(ss[k], n) && ss[k].rounds[n].phase == Idle
    ensures id in ss[k].rounds[n].roster
    ensures var first := FirstRevision(ss, es, k, n, id);
            first.None? || LastWord(ss, es, k, n, id) != Some(Vote(true, first.value))
  {
    BehaviourKeepsInv(ss, es, k);
    id :| id in ss[k].rounds[n].roster && !VotedSafely(ss[k].rounds[n], id);
    VotesAreLastWords(ss, es, k, n, id);
  }

  /** What the worker does on its own once lookups keep answering with the roster. */
  function SettleIfReturned(s: State, n: nat): (t: State)
    requires n < |s.rounds|
    ensures |t.rounds| == |s.rounds|
  {
    if s.rounds[n].phase == Returned then SettleCheck(s, n) else s
  }

  /** A consenting roster is never left waiting: at most one settled check and two lookups commit it. */
  lemma ConsentCommits(ss: seq<State>, es: seq<Event>, k: nat, n: nat, clients: seq<Client>)
    requires Behaviour(ss, es) && k < |ss|
    requires Open(ss[k], n) && Consented(ss[k].rounds[n])
    requires DistinctIds(clients) && RosterOf(clients) == ss[k].rounds[n].roster
    ensures var s1 := SettleIfReturned(ss[k], n);
            s1.rounds[n].phase in {FirstLookup, FinalLookup} &&
            var s2 := if s1.rounds[n].phase == FirstLookup then FirstAnswer(s1, n, Clients(clients)) else s1;
            s2.rounds[n].phase == FinalLookup &&
            var s3 := FinalAnswer(s2, n, Clients(clients));
            s3.rounds[n].started && s3.skips == ss[k].skips + [n] && s3.intent == Some(n)
  {
    hide SameRoster, Prune, RosterOf, Step, Enabled;
    BehaviourKeepsInv(ss, es, k);
    SameRosterIsEquality(ss[k].rounds[n].roster, clients);
    ConsentOfRoster(ss[k].rounds[n], clients);
  }
}
