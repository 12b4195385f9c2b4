/** The service worker's own variables and round objects, updated in place. */
module UpdateWorker {
  import opened Basics
  import opened UpdateRound

  class PreparationRound {
    const nonce: nat
    const roster: map<string, string>
    var firstRevisions: map<string, string>
    var votes: map<string, Vote>
    var started: bool
    var phase: Phase
    var checkAgain: bool
    var deadline: bool

    constructor (nonce: nat, clients: seq<Client>)
      ensures this.nonce == nonce
      ensures Value() == Round(RosterOf(clients), map[], map[], false, Idle, false, true)
    {
      this.nonce := nonce;
      roster := RosterOf(clients);
      firstRevisions, votes := map[], map[];
      started, phase, checkAgain, deadline := false, Idle, false, true;
    }

    function Value(): Round
      reads this
    {
      Round(roster, firstRevisions, votes, started, phase, checkAgain, deadline)
    }

    /** The length test and the loop of `sameRoster`. */
    method SameRosterAs(clients: seq<Client>) returns (same: bool)
      ensures same == SameRoster(roster, clients)
    {
      if |clients| != |roster| {
        return false;
      }
      for i := 0 to |clients|
        invariant forall j :: 0 <= j < i ==> clients[j].id in roster && roster[clients[j].id] == clients[j].url
      {
        if clients[i].id !in roster || roster[clients[i].id] != clients[i].url {
          return false;
        }
      }
      return true;
    }

    /** The loop that looks for a missing, unsafe or outdated vote. */
    method AllConsent(clients: seq<Client>) returns (consent: bool)
      ensures consent == ConsentOf(Value(), clients)
    {
      for i := 0 to |clients|
        invariant forall j :: 0 <= j < i ==> VotedSafely(Value(), clients[j].id)
      {
        if clients[i].id !in votes {
          return false;
        }
        var vote := votes[clients[i].id];
        if !vote.safe || clients[i].id !in firstRevisions || vote.revision != firstRevisions[clients[i].id] {
          return false;
        }
      }
      return true;
    }
  }

  ghost function Values(rs: seq<PreparationRound>): seq<Round>
    reads rs
  {
    seq(|rs|, i requires 0 <= i < |rs| reads rs => rs[i].Value())
  }

  class Worker {
    var preparationRound: PreparationRound?
    var activationIntent: Option<nat>
    var updatePorts: map<string, string>
    var preparing: multiset<Client>
    var activation: Activation
    var tokens: nat  // createToken(): a fresh nonce is the next number
    ghost var rounds: seq<PreparationRound>
    ghost var skips: seq<nat>

    ghost predicate Valid()
      reads this, rounds
    {
      tokens == |rounds| &&
      (forall i :: 0 <= i < |rounds| ==> rounds[i].nonce == i) &&
      (preparationRound != null ==> preparationRound in rounds)
    }

    ghost function Abs(): State
      reads this, rounds, preparationRound
    {
      State(
        Values(rounds),
        if preparationRound == null then None else Some(preparationRound.nonce),
        activationIntent, updatePorts, preparing, activation, skips)
    }

    constructor ()
      ensures Valid() && Abs() == INITIAL
    {
      preparationRound, activationIntent, updatePorts := null, None, map[];
      preparing, activation, tokens := multiset{}, NotActivated, 0;
      rounds, skips := [], [];
    }

    /** `scopedClients`: forget the ports of clients that are gone or have moved. */
    method ScopedClients(lookup: Lookup)
      requires Valid()
      modifies this`updatePorts
      ensures Valid() && Abs() == old(Abs()).(ports := Prune(old(updatePorts), lookup))
    {
      if lookup.Failed? {
        return;
      }
      var ids := updatePorts.Keys;
      while ids != {}
        invariant ids <= updatePorts.Keys <= old(updatePorts).Keys
        invariant forall id <- updatePorts :: updatePorts[id] == old(updatePorts)[id]
        invariant forall id <- old(updatePorts).Keys - ids ::
                    id in updatePorts <==> Client(id, old(updatePorts)[id]) in lookup.list
        decreases |ids|
      {
        var id :| id in ids;
        if Client(id, updatePorts[id]) !in lookup.list {
          updatePorts := updatePorts - {id};
        }
        ids := ids - {id};
      }
    }

    method DeferRound(round: PreparationRound)
      requires Valid() && round in rounds
      modifies this`preparationRound, this`updatePorts, round`deadline
      ensures Valid() && Abs() == Defer(old(Abs()), round.nonce)
    {
      if preparationRound != round {
        return;
      }
      preparationRound := null;
      round.deadline := false;
      updatePorts := map[];
      assert Values(rounds) == old(Values(rounds))[round.nonce := round.Value()];
    }

    method ConnectUpdatePort(source: Client)
      requires Valid()
      modifies this`updatePorts, preparationRound
      ensures Valid() && Abs() == Connect(old(Abs()), source)
    {
      if preparationRound != null && !preparationRound.started {
        preparationRound.votes := preparationRound.votes - {source.id};
        assert Values(rounds) == old(Values(rounds))[preparationRound.nonce := preparationRound.Value()];
      }
      updatePorts := updatePorts[source.id := source.url];
    }

    method SchedulePreparationCheck(round: PreparationRound)
      requires Valid() && round in rounds
      modifies round
      ensures Valid() && Abs() == Schedule(old(Abs()), round.nonce)
    {
      if preparationRound != round || round.started {
        return;
      }
      if round.phase != Idle {
        round.checkAgain := true;
      } else {
        round.phase := FirstLookup;
      }
      assert Values(rounds) == old(Values(rounds))[round.nonce := round.Value()];
    }

    /** The part of the check between its first await and its second. */
    method ResumeFirstLookup(round: PreparationRound, lookup: Lookup)
      requires Valid() && round in rounds
      modifies this`preparationRound, this`updatePorts, round
      ensures Valid() && Abs() == FirstAnswer(old(Abs()), round.nonce, lookup)
    {
      hide Prune, SameRoster, ConsentOf;
      ScopedClients(lookup);
      assert Values(rounds)[round.nonce] == round.Value();
      if preparationRound != round || round.started {
        SetRoundPhase(round, Returned);
        return;
      }
      var same := false;
      if lookup.Clients? {
        same := round.SameRosterAs(lookup.list);
      }
      if !same {
        DeferRound(round);
        SetRoundPhase(round, Returned);
        return;
      }
      var consent := round.AllConsent(lookup.list);
      SetRoundPhase(round, if consent then FinalLookup else Returned);
    }

    /** The part of the check from its second await to the call of skipWaiting(). */
    method ResumeFinalLookup(round: PreparationRound, lookup: Lookup)
      requires Valid() && round in rounds
      modifies this`preparationRound, this`updatePorts, this`activationIntent, this`skips, round
      ensures Valid() && Abs() == FinalAnswer(old(Abs()), round.nonce, lookup)
    {
      hide Prune, SameRoster, ConsentOf;
      ScopedClients(lookup);
      assert Values(rounds)[round.nonce] == round.Value();
      if preparationRound != round || round.started {
        SetRoundPhase(round, Returned);
        return;
      }
      var same := false;
      if lookup.Clients? {
        same := round.SameRosterAs(lookup.list);
      }
      if !same {
        DeferRound(round);
        SetRoundPhase(round, Returned);
        return;
      }
      var consent := round.AllConsent(lookup.list);
      if !consent {
        SetRoundPhase(round, Returned);
        return;
      }
      SkipWaiting(round);
    }

    /** The irreversible boundary: no await stands between the last roster check and this. */
    method SkipWaiting(round: PreparationRound)
      requires Valid() && round in rounds
      modifies this`activationIntent, this`skips, round
      ensures Valid() && Abs() == Commit(old(Abs()), round.nonce)
    {
      round.started := true;
      round.deadline := false;
      activationIntent := Some(round.nonce);
      round.phase := Skipping;
      skips := skips + [round.nonce];
      assert Values(rounds) == old(Values(rounds))[round.nonce := round.Value()];
    }

    method SetRoundPhase(round: PreparationRound, phase: Phase)
      requires Valid() && round in rounds
      modifies round`phase
      ensures Valid() && Abs() == SetPhase(old(Abs()), round.nonce, phase)
    {
      round.phase := phase;
      assert Values(rounds) == old(Values(rounds))[round.nonce := round.Value()];
    }

    /** skipWaiting() settled; its catch block clears the worker's variables. */
    method SkipSettled(round: PreparationRound, rejected: bool)
      requires Valid() && round in rounds
      modifies this`preparationRound, this`updatePorts, this`activationIntent, round`phase
      ensures Valid()
      ensures rejected ==>
                Abs() == SetPhase(old(Abs()).(current := None, intent := None, ports := map[]), round.nonce, Returned)
      ensures !rejected ==> Abs() == SetPhase(old(Abs()), round.nonce, Returned)
    {
      if rejected {
        preparationRound, activationIntent, updatePorts := null, None, map[];
      }
      SetRoundPhase(round, Returned);
    }

    /** The finally block of the check. */
    method CheckFinally(round: PreparationRound)
      requires Valid() && round in rounds
      modifies round
      ensures Valid() && Abs() == SettleCheck(old(Abs()), round.nonce)
    {
      assert Abs().rounds[round.nonce] == round.Value();
      SetRoundPhase(round, Idle);
      assert Abs().rounds[round.nonce] == round.Value();
      if round.checkAgain {
        round.checkAgain := false;
        assert Values(rounds) == old(Values(rounds))[round.nonce := round.Value()];
        SchedulePreparationCheck(round);
      }
    }

    method PreparationDeadline(round: PreparationRound)
      requires Valid() && round in rounds && round.deadline
      modifies this`preparationRound, this`updatePorts, round`deadline
      ensures Valid()
      ensures Abs() == Defer(old(Abs()).(rounds := old(Abs()).rounds[round.nonce := old(round.Value()).(deadline := false)]), round.nonce)
    {
      round.deadline := false;
      assert Values(rounds) == old(Values(rounds))[round.nonce := round.Value()];
      DeferRound(round);
    }

    /** A prepare message: connect its port, then the part of `startPreparation` before its await. */
    method StartPreparation(source: Client, hasPort: bool)
      requires Valid()
      modifies this`updatePorts, this`preparing, preparationRound
      ensures Valid() && Abs() == PrepareAsk(old(Abs()), source, hasPort)
    {
      if hasPort {
        ConnectUpdatePort(source);
      }
      if source.id !in updatePorts || updatePorts[source.id] != source.url || preparationRound != null {
        return;
      }
      preparing := preparing + multiset{source};
    }

    /** The part of `startPreparation` after its await. */
    method ResumePreparation(source: Client, lookup: Lookup)
      requires Valid() && source in preparing
      modifies this
      ensures Valid() && Abs() == PrepareAnswer(old(Abs()), source, lookup)
      ensures rounds[..|old(rounds)|] == old(rounds) && forall r <- rounds[|old(rounds)|..] :: fresh(r)
    {
      preparing := preparing - multiset{source};
      ScopedClients(lookup);
      if preparationRound != null || lookup.Failed? || !(exists client <- lookup.list :: client.id == source.id) {
        return;
      }
      OpenRound(lookup.list);
    }

    /** A new round over the roster found, which becomes the current one. */
    method OpenRound(clients: seq<Client>)
      requires Valid()
      modifies this`tokens, this`rounds, this`preparationRound
      ensures Valid() && |rounds| == |old(rounds)| + 1
      ensures Abs() == old(Abs()).(rounds := old(Abs()).rounds + [Round(RosterOf(clients), map[], map[], false, Idle, false, true)],
                                   current := Some(|old(rounds)|))
      ensures rounds[..|old(rounds)|] == old(rounds) && forall r <- rounds[|old(rounds)|..] :: fresh(r)
    {
      hide RosterOf;
      var round := new PreparationRound(tokens, clients);
      tokens := tokens + 1;
      rounds := rounds + [round];
      preparationRound := round;
      assert Values(rounds) == old(Values(rounds)) + [round.Value()];
    }

    /** `named` is the round whose worker, release and nonce the message carries, if any. */
    method AcceptSafetyVote(source: Client, named: Option<nat>, vote: Vote)
      requires Valid()
      modifies this`preparationRound, this`updatePorts, preparationRound
      ensures Valid() && Abs() == AcceptVote(old(Abs()), source, named, vote)
    {
      var round := preparationRound;
      if source.id !in updatePorts || updatePorts[source.id] != source.url
         || round == null || round.started || named != Some(round.nonce) || source.id !in round.roster
      {
        return;
      }
      if source.id in round.firstRevisions && round.firstRevisions[source.id] != vote.revision {
        DeferRound(round);
        return;
      }
      round.firstRevisions := round.firstRevisions[source.id := vote.revision];
      round.votes := round.votes[source.id := vote];
      assert Values(rounds) == old(Values(rounds))[round.nonce := round.Value()];
      SchedulePreparationCheck(round);
    }

    /** After clean-up and claim(): remember whose intent is announced. */
    method ActivateResume()
      requires Valid() && activation == Cleaning
      modifies this`activation
      ensures Valid() && Abs() == Step(old(Abs()), ActivateCleaned)
    {
      activation := match activationIntent case Some(nonce) => Notifying(nonce) case None => Activated(None);
    }

    method ActivateNotify(lookup: Lookup)
      requires Valid() && activation.Notifying? && WellFormed(lookup)
      modifies this`activation, this`preparationRound, this`activationIntent, this`updatePorts
      ensures Valid() && Abs() == Step(old(Abs()), ActivateNotified(lookup))
    {
      activation := Activated(Some(activation.nonce));
      preparationRound, activationIntent, updatePorts := null, None, map[];
    }
  }
}
