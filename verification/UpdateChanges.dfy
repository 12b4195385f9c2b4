/**
  What becomes of every part of the worker's state, told from the events of a run
  alone: when a round opens and closes, which ports stay, when a check runs, and
  when the worker commits.
*/
module UpdateChanges {
  import opened Basics
  import opened UpdateRound

  // ----- opening a round

  /** The event is the answer that finds the asking client among the open tabs, with no round open. */
  ghost predicate OpensRound(s: State, e: Event) {
    e.PrepareAnswered? && e.lookup.Clients? && s.current.None? && HasId(e.lookup.list, e.client.id)
  }

  /** A round nobody has voted in, with its deadline armed. */
  ghost predicate Untouched(r: Round) {
    !r.started && r.phase == Idle && !r.checkAgain && r.deadline && r.votes == map[] && r.firstRevisions == map[]
  }

  lemma StepOpens(s: State, e: Event)
    requires Enabled(s, e)
    ensures |Step(s, e).rounds| == |s.rounds| + (if OpensRound(s, e) then 1 else 0)
    ensures OpensRound(s, e) ==>
              var t := Step(s, e);
              t.current == Some(|s.rounds|) && Untouched(t.rounds[|s.rounds|]) &&
              t.rounds[|s.rounds|].roster == RosterOf(e.lookup.list) && t.rounds[..|s.rounds|] == s.rounds
    ensures s.current.None? && !OpensRound(s, e) ==> Step(s, e).current.None?
  {
    hide Connect, AcceptVote, FirstAnswer, FinalAnswer, Prune, RosterOf, SettleCheck;
    match e {
      case Connected(c) => ConnectTracksWords(s, c, 0, "");
      case PrepareAsked(c, _) => ConnectTracksWords(s, c, 0, "");
      case Voted(c, round, vote) => VoteTracksWords(s, c, round, vote, 0, "");
      case FirstAnswered(n, lookup) => FirstOpensNothing(s, n, lookup);
      case FinalAnswered(n, lookup) => FinalOpensNothing(s, n, lookup);
      case CheckSettled(n) => SettleTracksWords(s, n, 0, ""); SettleOpensNothing(s, n);
      case _ =>
    }
    if e.Voted? && s.current.None? { VoteOpensNothing(s, e.client, e.round, e.vote); }
  }

  lemma VoteOpensNothing(s: State, c: Client, round: Option<nat>, vote: Vote)
    requires s.current.None?
    ensures AcceptVote(s, c, round, vote) == s
  {
  }

  lemma FirstOpensNothing(s: State, n: nat, lookup: Lookup)
    requires n < |s.rounds|
    ensures s.current.None? ==> FirstAnswer(s, n, lookup).current.None?
  {
  }

  lemma FinalOpensNothing(s: State, n: nat, lookup: Lookup)
    requires n < |s.rounds|
    ensures s.current.None? ==> FinalAnswer(s, n, lookup).current.None?
  {
  }

  lemma SettleOpensNothing(s: State, n: nat)
    requires n < |s.rounds|
    ensures |SettleCheck(s, n).rounds| == |s.rounds| && SettleCheck(s, n).current == s.current
  {
  }

  /**
    A round opens exactly when a lookup finds the asking client and no round is
    open; it freezes that lookup as its roster, and one open tab is enough.
  */
  lemma RoundOpensExactly(ss: seq<State>, es: seq<Event>, k: nat)
    requires Behaviour(ss, es) && k < |es|
    ensures |ss[k + 1].rounds| == |ss[k].rounds| + 1 <==>
              es[k].PrepareAnswered? && es[k].lookup.Clients? && ss[k].current.None? &&
              exists tab <- es[k].lookup.list :: tab.id == es[k].client.id
    ensures |ss[k + 1].rounds| != |ss[k].rounds| + 1 ==>
              |ss[k + 1].rounds| == |ss[k].rounds| && (ss[k].current.None? ==> ss[k + 1].current.None?)
    ensures |ss[k + 1].rounds| == |ss[k].rounds| + 1 ==>
              var n := |ss[k].rounds|;
              ss[k + 1].current == Some(n) && Untouched(ss[k + 1].rounds[n]) &&
              ss[k + 1].rounds[n].roster == RosterOf(es[k].lookup.list) && ss[k + 1].rounds[..n] == ss[k].rounds
  {
    hide Step, Enabled;
    assert Follows(ss, es, k);
    StepOpens(ss[k], es[k]);
  }

  // ----- closing a round

  /** A vote of round `n` that the worker takes or answers by giving up. */
  ghost predicate Heard(s: State, e: Event, n: nat) {
    e.Voted? && e.round == Some(n) && Open(s, n) && e.client.id in s.rounds[n].roster &&
    e.client.id in s.ports && s.ports[e.client.id] == e.client.url
  }

  /** The voter had named another revision first. */
  ghost predicate Wavers(s: State, e: Event, n: nat) {
    Heard(s, e, n) && e.client.id in s.rounds[n].firstRevisions &&
    s.rounds[n].firstRevisions[e.client.id] != e.vote.revision
  }

  /** A lookup of round `n`'s check that failed or found other tabs than the round began with. */
  ghost predicate FindsOthers(s: State, e: Event, n: nat) {
    n < |s.rounds| && (e.FirstAnswered? || e.FinalAnswered?) && e.nonce == n &&
    (e.lookup.Clients? ==> RosterOf(e.lookup.list) != s.rounds[n].roster)
  }

  ghost predicate ClosesRound(s: State, e: Event, n: nat) {
    s.current == Some(n) &&
    (Wavers(s, e, n) || FindsOthers(s, e, n) || e == DeadlineFired(n) || e.SkipRejected? || e.ActivateNotified?)
  }

  lemma VoteCloses(s: State, e: Event, n: nat)
    requires Enabled(s, e) && s.current == Some(n) && e.Voted?
    ensures if Wavers(s, e, n) then Step(s, e).current.None? && Step(s, e).ports == map[] else Step(s, e).current == Some(n)
  {
  }

  lemma LookupCloses(s: State, e: Event, n: nat)
    requires Inv(s) && Enabled(s, e) && s.current == Some(n) && (e.FirstAnswered? || e.FinalAnswered?)
    ensures if FindsOthers(s, e, n) then Step(s, e).current.None? && Step(s, e).ports == map[] else Step(s, e).current == Some(n)
  {
    hide Prune, SameRoster, ConsentOf, RosterOf, Inv;
    if e.nonce == n {
      LookingIsUnstarted(s, n);
      if e.lookup.Clients? { SameRosterIsEquality(s.rounds[n].roster, e.lookup.list); }
    }
  }

  lemma StepCloses(s: State, e: Event, n: nat)
    requires Inv(s) && Enabled(s, e) && s.current == Some(n)
    ensures if ClosesRound(s, e, n) then Step(s, e).current.None? && Step(s, e).ports == map[]
            else Step(s, e).current == Some(n)
  {
    hide Inv, FirstAnswer, FinalAnswer, AcceptVote, SettleCheck, Prune, RosterOf, Connect, Open;
    match e {
      case Connected(c) => ConnectTracksWords(s, c, 0, "");
      case PrepareAsked(c, _) => ConnectTracksWords(s, c, 0, "");
      case Voted(_, _, _) => VoteCloses(s, e, n);
      case FirstAnswered(_, _) => LookupCloses(s, e, n);
      case FinalAnswered(_, _) => LookupCloses(s, e, n);
      case CheckSettled(m) => SettleOpensNothing(s, m);
      case _ =>
    }
  }

  /** Only the current round is rejected or activated. */
  lemma EndsCurrent(s: State, e: Event)
    requires Inv(s) && Enabled(s, e) && (e.SkipRejected? || e.ActivateNotified?)
    ensures s.current.Some? && s.intent == s.current && s.rounds[s.current.value].started
    ensures s.current.value == (if e.SkipRejected? then e.nonce else s.activation.nonce)
  {
    hide Watched, RoundInv;
    if e.SkipRejected? { assert RoundInv(s.rounds[e.nonce]) ==> s.rounds[e.nonce].started by { SkippingIsStarted(s.rounds[e.nonce]); } }
  }

  lemma SkippingIsStarted(r: Round)
    ensures RoundInv(r) && r.phase == Skipping ==> r.started
  {
  }

  /**
    The open round ends exactly when a client changes its mind about its revision,
    a lookup of the check does not find the roster again, the deadline passes,
    skipWaiting() fails or the new worker has activated. Every port is closed then.
  */
  lemma RoundClosesExactly(ss: seq<State>, es: seq<Event>, k: nat, n: nat)
    requires Behaviour(ss, es) && k < |es| && ss[k].current == Some(n)
    ensures ss[k + 1].current != Some(n) <==>
              Wavers(ss[k], es[k], n) || FindsOthers(ss[k], es[k], n) || es[k] == DeadlineFired(n) ||
              es[k].SkipRejected? || es[k].ActivateNotified?
    ensures ss[k + 1].current != Some(n) ==> ss[k + 1].current.None? && ss[k + 1].ports == map[]
  {
    hide Step, Enabled, Inv;
    BehaviourKeepsInv(ss, es, k);
    assert Follows(ss, es, k);
    StepCloses(ss[k], es[k], n);
  }

  // ----- ports

  /** The tabs the worker sees in the event, when it looks for them successfully. */
  function SeenTabs(e: Event): Option<seq<Client>> {
    match e
    case Reconciled(Clients(list)) => Some(list)
    case PrepareAnswered(_, Clients(list)) => Some(list)
    case FirstAnswered(_, Clients(list)) => Some(list)
    case FinalAnswered(_, Clients(list)) => Some(list)
    case _ => None
  }

  lemma VotePorts(s: State, e: Event)
    requires Enabled(s, e) && e.Voted?
    requires s.current.Some? ==> !Wavers(s, e, s.current.value)
    ensures Step(s, e).ports == s.ports
  {
  }

  lemma LookupPorts(s: State, e: Event)
    requires Inv(s) && Enabled(s, e) && (e.FirstAnswered? || e.FinalAnswered?)
    requires s.current.Some? ==> !FindsOthers(s, e, s.current.value)
    ensures Step(s, e).ports == Prune(s.ports, e.lookup)
  {
    hide Prune, SameRoster, ConsentOf, RosterOf, Inv;
    if s.current == Some(e.nonce) {
      LookingIsUnstarted(s, e.nonce);
      SameRosterIsEquality(s.rounds[e.nonce].roster, e.lookup.list);
    }
  }

  lemma SettlePorts(s: State, n: nat)
    requires n < |s.rounds|
    ensures SettleCheck(s, n).ports == s.ports
  {
  }

  lemma StepPorts(s: State, e: Event, id: string)
    requires Inv(s) && Enabled(s, e) && (s.current.Some? ==> !ClosesRound(s, e, s.current.value))
    ensures At(Step(s, e).ports, id) ==
            if OpensPort(e, id) then Some(e.client.url)
            else if e == PortLost(id) then None
            else if id in s.ports && SeenTabs(e).Some? && Client(id, s.ports[id]) !in SeenTabs(e).value then None
            else At(s.ports, id)
  {
    hide Inv, FirstAnswer, FinalAnswer, AcceptVote, SettleCheck, RosterOf;
    match e {
      case Voted(_, _, _) => VotePorts(s, e);
      case FirstAnswered(_, _) => LookupPorts(s, e);
      case FinalAnswered(_, _) => LookupPorts(s, e);
      case CheckSettled(m) => SettlePorts(s, m);
      case SkipRejected(_) => EndsCurrent(s, e); assert false;
      case ActivateNotified(_) => EndsCurrent(s, e); assert false;
      case _ =>
    }
  }

  /**
    While the round stays open, a tab's port is the last one it opened, until the
    port breaks or a lookup no longer finds the tab at the address it had.
  */
  lemma PortsExactly(ss: seq<State>, es: seq<Event>, k: nat, id: string)
    requires Behaviour(ss, es) && k < |es|
    ensures At(ss[k + 1].ports, id) ==
            if ss[k].current.Some? && ss[k + 1].current.None? then None
            else if OpensPort(es[k], id) then Some(es[k].client.url)
            else if es[k] == PortLost(id) then None
            else if id in ss[k].ports && SeenTabs(es[k]).Some? && Client(id, ss[k].ports[id]) !in SeenTabs(es[k]).value then None
            else At(ss[k].ports, id)
  {
    hide Step, Enabled, Inv;
    BehaviourKeepsInv(ss, es, k);
    assert Follows(ss, es, k);
    if ss[k].current.Some? { StepCloses(ss[k], es[k], ss[k].current.value); }
    if ss[k].current.None? || !ClosesRound(ss[k], es[k], ss[k].current.value) { StepPorts(ss[k], es[k], id); }
  }

  // ----- committing

  /** Every client of the roster holds a vote "safe" at the revision it named first. */
  ghost predicate Agreed(r: Round) {
    forall id <- r.roster ::
      id in r.votes && r.votes[id].safe && id in r.firstRevisions && r.votes[id].revision == r.firstRevisions[id]
  }

  lemma AgreedIsConsented(r: Round)
    ensures Agreed(r) <==> Consented(r)
  {
  }

  /** The last lookup of the check finds the roster again, and everybody on it still says "safe". */
  ghost predicate Commits(s: State, e: Event, n: nat) {
    e.FinalAnswered? && e.nonce == n && s.current == Some(n) && n < |s.rounds| && e.lookup.Clients? &&
    RosterOf(e.lookup.list) == s.rounds[n].roster && Agreed(s.rounds[n])
  }

  lemma FinalCommits(s: State, n: nat, lookup: Lookup)
    requires Inv(s) && Enabled(s, FinalAnswered(n, lookup))
    ensures var t := FinalAnswer(s, n, lookup);
            if Commits(s, FinalAnswered(n, lookup), n) then t.skips == s.skips + [n] && t.intent == Some(n)
            else t.skips == s.skips && t.intent == s.intent
  {
    hide Prune, SameRoster, ConsentOf, RosterOf, Inv, Consented, Agreed;
    LookingIsUnstarted(s, n);
    if lookup.Clients? {
      SameRosterIsEquality(s.rounds[n].roster, lookup.list);
      if SameRoster(s.rounds[n].roster, lookup.list) { ConsentOfRoster(s.rounds[n], lookup.list); AgreedIsConsented(s.rounds[n]); }
    }
  }

  lemma VoteCommitsNothing(s: State, c: Client, round: Option<nat>, vote: Vote)
    requires Bounded(s)
    ensures var t := AcceptVote(s, c, round, vote); t.skips == s.skips && t.intent == s.intent
  {
  }

  lemma FirstCommitsNothing(s: State, n: nat, lookup: Lookup)
    requires n < |s.rounds|
    ensures var t := FirstAnswer(s, n, lookup); t.skips == s.skips && t.intent == s.intent
  {
    hide Prune;
  }

  lemma SettleCommitsNothing(s: State, n: nat)
    requires n < |s.rounds|
    ensures var t := SettleCheck(s, n); t.skips == s.skips && t.intent == s.intent
  {
  }

  lemma StepCommits(s: State, e: Event)
    requires Inv(s) && Enabled(s, e)
    ensures var t := Step(s, e);
            if e.FinalAnswered? && Commits(s, e, e.nonce) then t.skips == s.skips + [e.nonce] && t.intent == Some(e.nonce)
            else t.skips == s.skips && t.intent == (if e.SkipRejected? || e.ActivateNotified? then None else s.intent)
  {
    hide Inv, FirstAnswer, FinalAnswer, AcceptVote, SettleCheck, RosterOf, Prune;
    match e {
      case Voted(c, round, vote) => VoteCommitsNothing(s, c, round, vote);
      case FirstAnswered(n, lookup) => FirstCommitsNothing(s, n, lookup);
      case FinalAnswered(n, lookup) => FinalCommits(s, n, lookup);
      case CheckSettled(n) => SettleCommitsNothing(s, n);
      case _ =>
    }
  }

  /**
    skipWaiting() is called exactly when the last lookup finds the opening roster
    with everybody consenting. The intent is remembered then, and forgotten
    exactly when skipWaiting() fails or the new worker has activated.
  */
  lemma CommitsExactly(ss: seq<State>, es: seq<Event>, k: nat)
    requires Behaviour(ss, es) && k < |es|
    ensures ss[k + 1].skips != ss[k].skips <==> es[k].FinalAnswered? && Commits(ss[k], es[k], es[k].nonce)
    ensures ss[k + 1].intent ==
            if ss[k + 1].skips != ss[k].skips then Some(es[k].nonce)
            else if es[k].SkipRejected? || es[k].ActivateNotified? then None
            else ss[k].intent
  {
    hide Step, Enabled, Inv;
    BehaviourKeepsInv(ss, es, k);
    assert Follows(ss, es, k);
    StepCommits(ss[k], es[k]);
  }

  // ----- one round

  /** The first lookup of the check finds the roster, and everybody on it says "safe". */
  ghost predicate Advances(s: State, e: Event, n: nat) {
    e.FirstAnswered? && e.nonce == n && s.current == Some(n) && n < |s.rounds| && e.lookup.Clients? &&
    RosterOf(e.lookup.list) == s.rounds[n].roster && Agreed(s.rounds[n])
  }

  /** The vote enters the round. */
  ghost predicate Counts(s: State, e: Event, n: nat) {
    Heard(s, e, n) && !Wavers(s, e, n)
  }

  /** Where the check of round `n` stands after the event. */
  ghost function PhaseAfter(s: State, e: Event, n: nat): Phase
    requires n < |s.rounds|
  {
    if Counts(s, e, n) && s.rounds[n].phase == Idle then FirstLookup
    else if e == CheckSettled(n) then (if s.rounds[n].checkAgain && Open(s, n) then FirstLookup else Idle)
    else if Advances(s, e, n) then FinalLookup
    else if Commits(s, e, n) then Skipping
    else if (e.FirstAnswered? || e.FinalAnswered? || e.SkipResolved? || e.SkipRejected?) && e.nonce == n then Returned
    else s.rounds[n].phase
  }

  /** The round after the event, apart from its votes, first revisions and deadline. */
  ghost predicate RunsOn(s: State, e: Event, n: nat, r: Round)
    requires n < |s.rounds|
  {
    r.roster == s.rounds[n].roster &&
    (r.started <==> s.rounds[n].started || Commits(s, e, n)) &&
    r.phase == PhaseAfter(s, e, n) &&
    (r.checkAgain <==>
       if Counts(s, e, n) && s.rounds[n].phase != Idle then true
       else s.rounds[n].checkAgain && e != CheckSettled(n))
  }

  lemma VoteRuns(s: State, e: Event, n: nat)
    requires Enabled(s, e) && e.Voted? && n < |s.rounds|
    ensures |Step(s, e).rounds| == |s.rounds| && RunsOn(s, e, n, Step(s, e).rounds[n])
  {
  }

  lemma FirstRuns(s: State, m: nat, lookup: Lookup, n: nat)
    requires var e := FirstAnswered(m, lookup); Inv(s) && Enabled(s, e) && n < |s.rounds|
    ensures RunsOn(s, FirstAnswered(m, lookup), n, FirstAnswer(s, m, lookup).rounds[n])
  {
    hide Prune, SameRoster, ConsentOf, RosterOf, Inv, Consented, Agreed;
    LookingIsUnstarted(s, m);
    if lookup.Clients? {
      SameRosterIsEquality(s.rounds[m].roster, lookup.list);
      if SameRoster(s.rounds[m].roster, lookup.list) { ConsentOfRoster(s.rounds[m], lookup.list); AgreedIsConsented(s.rounds[m]); }
    }
  }

  lemma FinalRuns(s: State, m: nat, lookup: Lookup, n: nat)
    requires var e := FinalAnswered(m, lookup); Inv(s) && Enabled(s, e) && n < |s.rounds|
    ensures RunsOn(s, FinalAnswered(m, lookup), n, FinalAnswer(s, m, lookup).rounds[n])
  {
    hide Prune, SameRoster, ConsentOf, RosterOf, Inv, Consented, Agreed;
    LookingIsUnstarted(s, m);
    if lookup.Clients? {
      SameRosterIsEquality(s.rounds[m].roster, lookup.list);
      if SameRoster(s.rounds[m].roster, lookup.list) { ConsentOfRoster(s.rounds[m], lookup.list); AgreedIsConsented(s.rounds[m]); }
    }
  }

  lemma SettleRuns(s: State, m: nat, n: nat)
    requires Enabled(s, CheckSettled(m)) && n < |s.rounds|
    ensures |SettleCheck(s, m).rounds| == |s.rounds| && RunsOn(s, CheckSettled(m), n, SettleCheck(s, m).rounds[n])
  {
  }

  /** Nothing but a round's own messages and answers moves its check. */
  ghost predicate Stays(r: Round, r': Round) {
    r'.roster == r.roster && r'.started == r.started && r'.phase == r.phase && r'.checkAgain == r.checkAgain
  }

  lemma StaysRuns(s: State, e: Event, n: nat, r: Round)
    requires n < |s.rounds| && Stays(s.rounds[n], r)
    requires !e.Voted? && !e.FirstAnswered? && !e.FinalAnswered? && !e.CheckSettled? && !e.SkipResolved? && !e.SkipRejected?
    ensures RunsOn(s, e, n, r)
  {
  }

  lemma ConnectStays(s: State, c: Client, n: nat)
    requires Bounded(s) && n < |s.rounds|
    ensures |Connect(s, c).rounds| == |s.rounds| && Stays(s.rounds[n], Connect(s, c).rounds[n])
  {
  }

  lemma PrepareStays(s: State, c: Client, lookup: Lookup, n: nat)
    requires n < |s.rounds|
    ensures n < |PrepareAnswer(s, c, lookup).rounds| && PrepareAnswer(s, c, lookup).rounds[n] == s.rounds[n]
  {
    hide RosterOf, Prune;
  }

  /** Ports, new rounds, deadlines and activation leave the check of a round alone. */
  lemma QuietRuns(s: State, e: Event, n: nat)
    requires Enabled(s, e) && n < |s.rounds|
    requires !e.Voted? && !e.FirstAnswered? && !e.FinalAnswered? && !e.CheckSettled? && !e.SkipResolved? && !e.SkipRejected?
    ensures n < |Step(s, e).rounds| && RunsOn(s, e, n, Step(s, e).rounds[n])
  {
    hide RosterOf, Prune, PrepareAnswer, Connect, RunsOn;
    match e {
      case Connected(c) => ConnectStays(s, c, n);
      case PrepareAsked(c, _) => ConnectStays(s, c, n);
      case PrepareAnswered(c, lookup) => PrepareStays(s, c, lookup, n);
      case _ =>
    }
    StaysRuns(s, e, n, Step(s, e).rounds[n]);
  }

  lemma SkipEndRuns(s: State, e: Event, n: nat)
    requires Enabled(s, e) && n < |s.rounds| && (e.SkipResolved? || e.SkipRejected?)
    ensures |Step(s, e).rounds| == |s.rounds| && RunsOn(s, e, n, Step(s, e).rounds[n])
  {
  }

  lemma StepRuns(s: State, e: Event, n: nat)
    requires Inv(s) && Enabled(s, e) && n < |s.rounds|
    ensures n < |Step(s, e).rounds| && RunsOn(s, e, n, Step(s, e).rounds[n])
  {
    hide Inv, FirstAnswer, FinalAnswer, AcceptVote, SettleCheck, PrepareAnswer, PrepareAsk, Connect, Prune, RunsOn, SetPhase, Defer;
    match e {
      case Voted(_, _, _) => VoteRuns(s, e, n);
      case FirstAnswered(m, lookup) => FirstRuns(s, m, lookup, n);
      case FinalAnswered(m, lookup) => FinalRuns(s, m, lookup, n);
      case CheckSettled(m) => SettleRuns(s, m, n);
      case SkipResolved(_) => SkipEndRuns(s, e, n);
      case SkipRejected(_) => SkipEndRuns(s, e, n);
      case _ => QuietRuns(s, e, n);
    }
  }

  /**
    A check starts exactly when a vote enters an idle round, or when it settles
    while a vote asked for another; it advances exactly when a lookup finds the
    roster with everybody consenting, and returns otherwise.
  */
  lemma RoundRunsExactly(ss: seq<State>, es: seq<Event>, k: nat, n: nat)
    requires Behaviour(ss, es) && k < |es| && n < |ss[k].rounds|
    ensures n < |ss[k + 1].rounds| && RunsOn(ss[k], es[k], n, ss[k + 1].rounds[n])
  {
    hide Step, Enabled, Inv, RunsOn;
    BehaviourKeepsInv(ss, es, k);
    assert Follows(ss, es, k);
    StepRuns(ss[k], es[k], n);
  }

  /** Only the open round has a deadline, and it always has one. */
  ghost predicate DeadlinesRun(s: State) {
    forall n: nat :: n < |s.rounds| ==> (s.rounds[n].deadline <==> Open(s, n))
  }

  lemma StepKeepsDeadlines(s: State, e: Event)
    requires Inv(s) && Enabled(s, e) && DeadlinesRun(s)
    ensures DeadlinesRun(Step(s, e))
  {
    hide FirstAnswer, FinalAnswer, AcceptVote, SettleCheck, PrepareAnswer, RosterOf, Prune, Connect, Inv;
    match e {
      case Connected(c) => ConnectKeepsDeadlines(s, c);
      case PrepareAsked(c, _) => ConnectKeepsDeadlines(s, c);
      case Voted(c, round, vote) => VoteKeepsDeadlines(s, c, round, vote);
      case FirstAnswered(n, lookup) => AnswerKeepsDeadlines(s, n, lookup);
      case FinalAnswered(n, lookup) => AnswerKeepsDeadlines(s, n, lookup);
      case CheckSettled(n) => SettleKeepsDeadlines(s, n);
      case SkipRejected(_) => EndKeepsDeadlines(s, e);
      case ActivateNotified(_) => EndKeepsDeadlines(s, e);
      case PrepareAnswered(c, lookup) => PrepareKeepsDeadlines(s, c, lookup);
      case _ =>
    }
  }

  lemma EndKeepsDeadlines(s: State, e: Event)
    requires Inv(s) && Enabled(s, e) && DeadlinesRun(s) && (e.SkipRejected? || e.ActivateNotified?)
    ensures DeadlinesRun(Step(s, e))
  {
    hide Inv;
    EndsCurrent(s, e);
  }

  lemma PrepareKeepsDeadlines(s: State, c: Client, lookup: Lookup)
    requires Bounded(s) && DeadlinesRun(s)
    ensures DeadlinesRun(PrepareAnswer(s, c, lookup))
  {
    hide Prune, RosterOf;
  }

  lemma ConnectKeepsDeadlines(s: State, c: Client)
    requires Bounded(s) && DeadlinesRun(s)
    ensures DeadlinesRun(Connect(s, c))
  {
  }

  lemma VoteKeepsDeadlines(s: State, c: Client, round: Option<nat>, vote: Vote)
    requires Bounded(s) && DeadlinesRun(s)
    ensures DeadlinesRun(AcceptVote(s, c, round, vote))
  {
  }

  lemma AnswerKeepsDeadlines(s: State, n: nat, lookup: Lookup)
    requires n < |s.rounds| && DeadlinesRun(s)
    ensures DeadlinesRun(FirstAnswer(s, n, lookup)) && DeadlinesRun(FinalAnswer(s, n, lookup))
  {
    hide Prune, SameRoster, ConsentOf;
  }

  lemma SettleKeepsDeadlines(s: State, n: nat)
    requires n < |s.rounds| && DeadlinesRun(s)
    ensures DeadlinesRun(SettleCheck(s, n))
  {
  }

  /** An open round always ends: its deadline is armed, and no other round's is. */
  lemma {:induction false} DeadlineGuardsOpenRound(ss: seq<State>, es: seq<Event>, k: nat, n: nat)
    requires Behaviour(ss, es) && k < |ss| && n < |ss[k].rounds|
    ensures ss[k].rounds[n].deadline <==> ss[k].current == Some(n) && !ss[k].rounds[n].started
  {
    RunKeepsDeadlines(ss, es, k);
  }

  lemma {:induction false} RunKeepsDeadlines(ss: seq<State>, es: seq<Event>, k: nat)
    requires Behaviour(ss, es) && k < |ss|
    ensures DeadlinesRun(ss[k])
  {
    hide Step, Enabled, Inv;
    if k > 0 {
      RunKeepsDeadlines(ss, es, k - 1);
      BehaviourKeepsInv(ss, es, k - 1);
      assert Follows(ss, es, k - 1);
      StepKeepsDeadlines(ss[k - 1], es[k - 1]);
    }
  }

  // ----- asking tabs and activation

  lemma StepAsks(s: State, e: Event)
    requires Enabled(s, e)
    ensures Step(s, e).preparing ==
            if e.PrepareAsked? && s.current.None? && (e.hasPort || Attached(s, e.client)) then s.preparing + multiset{e.client}
            else if e.PrepareAnswered? then s.preparing - multiset{e.client}
            else s.preparing
    ensures Step(s, e).activation ==
            match e
            case ActivateBegun => Cleaning
            case ActivateCleaned => (if s.intent.Some? then Notifying(s.intent.value) else Activated(None))
            case ActivateNotified(_) => Activated(Some(s.activation.nonce))
            case _ => s.activation
  {
    hide FirstAnswer, FinalAnswer, AcceptVote, SettleCheck, RosterOf, Prune;
    match e {
      case Voted(c, round, vote) => VoteAsksNothing(s, c, round, vote);
      case FirstAnswered(n, lookup) => AnswerAsksNothing(s, n, lookup);
      case FinalAnswered(n, lookup) => AnswerAsksNothing(s, n, lookup);
      case CheckSettled(n) => SettleAsksNothing(s, n);
      case _ =>
    }
  }

  lemma VoteAsksNothing(s: State, c: Client, round: Option<nat>, vote: Vote)
    requires Bounded(s)
    ensures var t := AcceptVote(s, c, round, vote); t.preparing == s.preparing && t.activation == s.activation
  {
  }

  lemma AnswerAsksNothing(s: State, n: nat, lookup: Lookup)
    requires n < |s.rounds|
    ensures var t := FirstAnswer(s, n, lookup); t.preparing == s.preparing && t.activation == s.activation
    ensures var t := FinalAnswer(s, n, lookup); t.preparing == s.preparing && t.activation == s.activation
  {
    hide Prune;
  }

  lemma SettleAsksNothing(s: State, n: nat)
    requires n < |s.rounds|
    ensures var t := SettleCheck(s, n); t.preparing == s.preparing && t.activation == s.activation
  {
  }

  /** A tab waits for a lookup exactly from the moment it asks with a live port and no round open. */
  lemma AsksExactly(ss: seq<State>, es: seq<Event>, k: nat)
    requires Behaviour(ss, es) && k < |es|
    ensures ss[k + 1].preparing ==
            if es[k].PrepareAsked? && ss[k].current.None? && (es[k].hasPort || At(ss[k].ports, es[k].client.id) == Some(es[k].client.url))
            then ss[k].preparing + multiset{es[k].client}
            else if es[k].PrepareAnswered? then ss[k].preparing - multiset{es[k].client}
            else ss[k].preparing
    ensures ss[k + 1].activation != ss[k].activation ==>
              es[k].ActivateBegun? || es[k].ActivateCleaned? || es[k].ActivateNotified?
    ensures es[k].ActivateCleaned? ==>
              ss[k + 1].activation ==
              if ss[k].intent.Some? then Notifying(ss[k].intent.value) else Activated(None)
  {
    hide Step, Enabled, Inv;
    assert Follows(ss, es, k);
    StepAsks(ss[k], es[k]);
  }
}
