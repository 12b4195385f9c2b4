/**
  The live-note transport: one client with at most one update in flight, a durable
  server that applies each request once, and sockets whose queued bytes may still
  reach the server after the client has given up on them. A Yjs update is known by
  its request id, and a document is the set of updates it has joined.
*/
module LiveNote {
  import opened Basics

  const MAX_UPDATE_BYTES: nat := 64 * 1024

  datatype Edit = Edit(id: nat, size: nat)

  datatype Note = Note(ours: bool, revision: nat, canEdit: bool, document: set<nat>)

  /** `Broken` is a server error, or anything that does not parse. */
  datatype Message = Sync(note: Note) | Ack(id: nat, note: Note) | Broken

  datatype Phase = Opening | Open | Closing | Dead

  /** A socket the client opened: bytes under way to the server and back. */
  datatype Wire = Wire(epoch: nat, phase: Phase, congested: bool, up: seq<Edit>, down: seq<Message>)

  datatype Connection = Connecting | Connected | Offline | Blocked

  datatype Client = Client(
    identity: bool,            // the signed-in account is still the one that opened the note
    pending: seq<Edit>,        // a Map: insertion order
    sent: set<nat>,
    socket: Option<nat>,
    sessions: set<nat>,        // epochs whose session request is unanswered
    timer: Option<nat>,
    armed: set<nat>,           // timers that will still fire
    handles: nat,
    epoch: nat,
    disposed: bool,
    synced: bool,
    oversized: bool,
    authorized: bool,
    state: Connection,
    revision: nat,
    canEdit: bool,
    document: set<nat>,
    wires: seq<Wire>)

  datatype SessionOutcome = Granted | Denied | Unreachable

  predicate Current(c: Client) {
    !c.disposed && c.identity
  }

  function Ids(edits: seq<Edit>): seq<nat> {
    seq(|edits|, i requires 0 <= i < |edits| => edits[i].id)
  }

  // ----- the client's methods

  function CloseWire(wires: seq<Wire>, socket: Option<nat>): seq<Wire> {
    if socket.Some? && socket.value < |wires| && wires[socket.value].phase != Dead
    then wires[socket.value := wires[socket.value].(phase := Closing)]
    else wires
  }

  function Disarm(c: Client): set<nat> {
    if c.timer.Some? then c.armed - {c.timer.value} else c.armed
  }

  /** What every way out of an epoch does. */
  function LeaveEpoch(c: Client): Client {
    c.(epoch := c.epoch + 1, armed := Disarm(c), wires := CloseWire(c.wires, c.socket))
  }

  function Fence(c: Client): Client {
    LeaveEpoch(c).(timer := None, socket := None)
  }

  function Block(c: Client): Client {
    Fence(c).(state := Blocked)
  }

  function Connect(c: Client): Client {
    if !Current(c) || !c.authorized || c.state == Blocked then c
    else Ask(Fence(c))
  }

  /** A new attempt, in the epoch that has just begun. */
  function Ask(c: Client): Client {
    c.(sent := {}, synced := false, state := Connecting, sessions := c.sessions + {c.epoch})
  }

  function Reconnect(c: Client): Client {
    if !Current(c) || !c.authorized || c.state == Blocked then c
    else c.(state := Offline, timer := Some(c.handles), armed := c.armed + {c.handles}, handles := c.handles + 1)
  }

  function AnswerSession(c: Client, epoch: nat, outcome: SessionOutcome): Client {
    var d := c.(sessions := c.sessions - {epoch});
    if !Current(d) || epoch != d.epoch then d
    else
      match outcome
      case Granted => d.(wires := d.wires + [Wire(epoch, Opening, false, [], [])], socket := Some(|d.wires|))
      case Denied => Block(d)
      case Unreachable => Reconnect(d)
  }

  /** The first update in the queue that may go out. */
  function NextToSend(pending: seq<Edit>, sent: set<nat>): Option<Edit> {
    if pending == [] then None
    else if pending[0].size > MAX_UPDATE_BYTES || pending[0].id in sent then NextToSend(pending[1..], sent)
    else Some(pending[0])
  }

  predicate MayFlush(c: Client) {
    Current(c) && c.authorized && c.synced && c.canEdit && c.state != Blocked &&
    c.socket.Some? && c.socket.value < |c.wires| && c.wires[c.socket.value].phase == Open && c.sent == {}
  }

  function Flush(c: Client): Client {
    if !MayFlush(c) then c
    else
      var n := c.socket.value;
      var w := c.wires[n];
      match NextToSend(c.pending, c.sent)
      case None => c
      case Some(edit) =>
        if w.congested then c.(wires := CloseWire(c.wires, c.socket))
        else c.(wires := c.wires[n := w.(up := w.up + [edit])], sent := c.sent + {edit.id})
  }

  function Changed(c: Client, edit: Edit): Client {
    if c.disposed then c
    else
      var d := c.(pending := c.pending + [edit], document := c.document + {edit.id});
      if edit.size > MAX_UPDATE_BYTES then Block(d.(oversized := true))
      else if !Current(d) then Block(d)
      else Flush(d)
  }

  function Accept(c: Client, note: Note): Client {
    if !Current(c) || !note.ours then c
    else
      var d := c.(document := c.document + note.document);
      if note.revision >= c.revision then d.(revision := note.revision, canEdit := note.canEdit) else d
  }

  function Drop(pending: seq<Edit>, id: nat): seq<Edit> {
    if pending == [] then []
    else if pending[0].id == id then pending[1..]
    else [pending[0]] + Drop(pending[1..], id)
  }

  /** A well-formed sync or ack, up to the flush. */
  function Digest(c: Client, message: Message): Client
    requires !message.Broken?
  {
    var d := Accept(c, message.note);
    (if message.Ack? then Retire(d, message.id) else d).(synced := true, state := Connected)
  }

  function Retire(c: Client, id: nat): Client {
    c.(pending := Drop(c.pending, id), sent := c.sent - {id})
  }

  function Receive(c: Client, n: nat, message: Message): Client {
    if !Current(c) || c.socket != Some(n) then c
    else if message.Broken? || !message.note.ours then Block(c)
    else Flush(Digest(c, message))
  }

  function Closed(c: Client, n: nat, refused: bool): Client {
    if c.socket != Some(n) || c.disposed then c
    else
      var d := c.(socket := None, synced := false);
      if refused then Block(d) else Reconnect(d)
  }

  function SetAuthorization(c: Client, ready: bool): Client {
    if c.authorized == ready || c.state == Blocked || !Current(c) then c
    else if ready then Connect(c.(authorized := true))
    else Suspend(c)
  }

  function Suspend(c: Client): Client {
    Fence(c.(authorized := false)).(synced := false, state := Offline)
  }

  function Destroy(c: Client): Client {
    LeaveEpoch(c.(disposed := true))
  }

  // ----- client, network and server together

  /** `edits` lists the local edits made before destroy, `applied` the server's first-time applications. */
  datatype System = System(client: Client, edits: seq<Edit>, applied: seq<nat>, document: set<nat>, revision: nat)

  /** The server commits and answers, commits and loses the answer, or refuses. */
  datatype Verdict = Acknowledged | Uncertain | Refused

  datatype Event =
    | Typed(edit: Edit)
    | IdentityIs(same: bool)
    | ConnectCalled
    | SessionAnswered(epoch: nat, outcome: SessionOutcome)
    | TimerFired(handle: nat)
    | SocketOpened(n: nat)
    | SocketCongested(n: nat, congested: bool)
    | SocketFailed(n: nat)
    | SocketClosed(n: nat, refused: bool)
    | Delivered(n: nat)
    | NoteAccepted(note: Note)
    | AuthorizationSet(ready: bool)
    | BlockCalled
    | DestroyCalled
    | ServerTook(n: nat, verdict: Verdict, canEdit: bool)
    | ServerSynced(n: nat, canEdit: bool)
    | ServerBroke(n: nat)
    | ServerJoined(updates: set<nat>)

  function SetWire(s: System, n: nat, w: Wire): System
    requires n < |s.client.wires|
  {
    s.(client := s.client.(wires := s.client.wires[n := w]))
  }

  function Snapshot(s: System, canEdit: bool): Note {
    Note(true, s.revision, canEdit, s.document)
  }

  /** A durable request id is applied once; a repeated one changes nothing. */
  function Apply(s: System, id: nat): System {
    if id in s.applied then s
    else s.(applied := s.applied + [id], document := s.document + {id}, revision := s.revision + 1)
  }

  function Take(s: System, n: nat, verdict: Verdict, canEdit: bool): System
    requires n < |s.client.wires| && s.client.wires[n].up != []
  {
    var w := s.client.wires[n];
    var id := w.up[0].id;
    var t := SetWire(s, n, w.(up := w.up[1..]));
    match verdict
    case Refused => t
    case Uncertain => Apply(t, id)
    case Acknowledged =>
      var u := Apply(t, id);
      SetWire(u, n, u.client.wires[n].(down := w.down + [Ack(id, Snapshot(u, canEdit))]))
  }

  predicate Enabled(s: System, e: Event) {
    match e
    // crypto.randomUUID(): a new edit never reuses an id
    case Typed(edit) => edit.id !in Ids(s.edits) && edit.id !in s.document
    case SessionAnswered(epoch, _) => epoch in s.client.sessions
    case TimerFired(handle) => handle in s.client.armed
    case SocketOpened(n) => n < |s.client.wires| && s.client.wires[n].phase == Opening
    case SocketCongested(n, _) => n < |s.client.wires|
    case SocketFailed(n) => n < |s.client.wires|
    case SocketClosed(n, _) => n < |s.client.wires| && s.client.wires[n].phase != Dead
    case Delivered(n) => n < |s.client.wires| && s.client.wires[n].down != []
    // a note read over HTTP is some earlier state of the server
    case NoteAccepted(note) => note.document <= s.document && note.revision <= s.revision
    // queued bytes may arrive on any socket, closed or not
    case ServerTook(n, _, _) => n < |s.client.wires| && s.client.wires[n].up != []
    case ServerSynced(n, _) => n < |s.client.wires|
    case ServerBroke(n) => n < |s.client.wires|
    case _ => true
  }

  function Deliver(s: System, n: nat): System
    requires n < |s.client.wires| && s.client.wires[n].down != []
  {
    var w := s.client.wires[n];
    var t := SetWire(s, n, w.(down := w.down[1..]));
    t.(client := Receive(t.client, n, w.down[0]))
  }

  function Push(s: System, n: nat, message: Message): System
    requires n < |s.client.wires|
  {
    var w := s.client.wires[n];
    SetWire(s, n, w.(down := w.down + [message]))
  }

  function Step(s: System, e: Event): System
    requires Enabled(s, e)
  {
    var c := s.client;
    match e
    case Typed(edit) =>
      s.(client := Changed(c, edit), edits := if c.disposed then s.edits else s.edits + [edit])
    case IdentityIs(same) => s.(client := c.(identity := same))
    case ConnectCalled => s.(client := Connect(c))
    case SessionAnswered(epoch, outcome) => s.(client := AnswerSession(c, epoch, outcome))
    case TimerFired(handle) => s.(client := Connect(c.(armed := c.armed - {handle})))
    case SocketOpened(n) => SetWire(s, n, c.wires[n].(phase := Open))
    case SocketCongested(n, congested) => SetWire(s, n, c.wires[n].(congested := congested))
    case SocketFailed(n) => if c.socket == Some(n) then s.(client := c.(wires := CloseWire(c.wires, c.socket))) else s
    case SocketClosed(n, refused) =>
      s.(client := Closed(c.(wires := c.wires[n := c.wires[n].(phase := Dead)]), n, refused))
    case Delivered(n) => Deliver(s, n)
    case NoteAccepted(note) => s.(client := Accept(c, note))
    case AuthorizationSet(ready) => s.(client := SetAuthorization(c, ready))
    case BlockCalled => s.(client := Block(c))
    case DestroyCalled => s.(client := Destroy(c))
    case ServerTook(n, verdict, canEdit) => Take(s, n, verdict, canEdit)
    case ServerSynced(n, canEdit) => Push(s, n, Sync(Snapshot(s, canEdit)))
    case ServerBroke(n) => Push(s, n, Broken)
    case ServerJoined(updates) => s.(document := s.document + updates, revision := s.revision + 1)
  }

  predicate Initial(s: System) {
    s.client == Client(true, [], {}, None, {}, None, {}, 0, 0, false, false, false, true, Connecting,
                       s.revision, s.client.canEdit, s.document, []) &&
    s.edits == [] && s.applied == []
  }

  // ----- what the transport keeps, whatever server and network do

  predicate Live(w: Wire) {
    w.phase == Opening || w.phase == Open
  }

  /** The one outstanding request is the oldest unacknowledged edit. */
  predicate OldestInFlight(c: Client) {
    c.sent == {} || (c.pending != [] && c.sent == {c.pending[0].id})
  }

  /** At most one socket is live: the newest epoch's, held by an undisposed client. */
  ghost predicate OneLiveSocket(c: Client) {
    (c.socket.Some? ==> c.socket.value < |c.wires| && (!c.disposed ==> c.wires[c.socket.value].epoch == c.epoch)) &&
    (forall n :: 0 <= n < |c.wires| && Live(c.wires[n]) ==> c.socket == Some(n) && !c.disposed)
  }

  /** Of timer, session request and socket at most one is under way. */
  ghost predicate OneAttempt(c: Client) {
    (forall e <- c.sessions :: e <= c.epoch) &&
    (c.armed == {} || (c.timer.Some? && c.armed == {c.timer.value})) &&
    (c.armed != {} ==> c.socket.None? && c.epoch !in c.sessions) &&
    (c.socket.Some? ==> c.epoch !in c.sessions)
  }

  ghost predicate Quiet(c: Client) {
    c.socket.None? && c.armed == {} && c.epoch !in c.sessions
  }

  ghost predicate Fenced(c: Client) {
    (c.state == Blocked ==> Quiet(c)) &&
    (!c.authorized ==> Quiet(c)) &&
    (c.synced && c.state != Blocked ==> c.socket.Some?) &&
    (c.oversized || (exists e <- c.pending :: e.size > MAX_UPDATE_BYTES) ==> c.state == Blocked)
  }

  ghost predicate Transport(c: Client) {
    OldestInFlight(c) && OneLiveSocket(c) && OneAttempt(c) && Fenced(c)
  }

  lemma BlockKeeps(c: Client)
    requires Transport(c)
    ensures Transport(Block(c))
  {
  }

  lemma ConnectKeeps(c: Client)
    requires Transport(c)
    ensures Transport(Connect(c))
  {
  }

  lemma ReconnectKeeps(c: Client)
    requires Transport(c) && Quiet(c) && !c.synced
    ensures Transport(Reconnect(c))
  {
  }

  lemma SessionKeeps(c: Client, epoch: nat, outcome: SessionOutcome)
    requires Transport(c) && epoch in c.sessions
    ensures Transport(AnswerSession(c, epoch, outcome))
  {
    var d := c.(sessions := c.sessions - {epoch});
    if Current(d) && epoch == d.epoch {
      if outcome.Unreachable? { ReconnectKeeps(d); }
    }
  }

  lemma FlushKeeps(c: Client)
    requires Transport(c)
    ensures Transport(Flush(c))
    ensures MayFlush(c) && c.pending != [] ==> NextToSend(c.pending, c.sent) == Some(c.pending[0])
  {
    if MayFlush(c) && c.pending != [] {
      assert c.pending[0] in c.pending;
    }
  }

  lemma ChangedKeeps(c: Client, edit: Edit)
    requires Transport(c)
    ensures Transport(Changed(c, edit))
  {
    if !c.disposed {
      var d := c.(pending := c.pending + [edit], document := c.document + {edit.id});
      if edit.size > MAX_UPDATE_BYTES {
        BlockKeepsMore(c, d.(oversized := true));
      } else if !Current(d) {
        BlockKeepsMore(c, d);
      } else {
        TypedKeeps(c, edit);
        hide Transport, Flush;
        FlushKeeps(d);
      }
    }
  }

  lemma TypedKeeps(c: Client, edit: Edit)
    requires Transport(c) && edit.size <= MAX_UPDATE_BYTES
    ensures Transport(c.(pending := c.pending + [edit], document := c.document + {edit.id}))
  {
  }

  /** Blocking keeps the invariant whatever has been typed before. */
  lemma BlockKeepsMore(c: Client, d: Client)
    requires Transport(c) && c.pending <= d.pending
    requires d == c.(pending := d.pending, document := d.document, oversized := d.oversized)
    ensures Transport(Block(d))
  {
  }

  lemma {:induction false} DropMeaning(pending: seq<Edit>, id: nat)
    ensures forall e <- Drop(pending, id) :: e in pending
    ensures pending != [] && pending[0].id != id ==> Drop(pending, id) != [] && Drop(pending, id)[0] == pending[0]
    ensures (forall e <- pending :: e.id != id) ==> Drop(pending, id) == pending
  {
    if pending != [] { DropMeaning(pending[1..], id); }
  }

  lemma AcceptFrame(c: Client, note: Note)
    ensures Accept(c, note) == c.(document := Accept(c, note).document, revision := Accept(c, note).revision,
                                  canEdit := Accept(c, note).canEdit)
  {
  }

  lemma BlockedHasNoSocket(c: Client)
    requires Transport(c) && c.socket.Some?
    ensures c.state != Blocked && c.authorized
  {
  }

  lemma RetireKeeps(c: Client, id: nat)
    requires Transport(c)
    ensures Transport(c.(pending := Drop(c.pending, id), sent := c.sent - {id}))
  {
    hide OneLiveSocket, OneAttempt, Quiet, Drop;
    DropMeaning(c.pending, id);
    var d := c.(pending := Drop(c.pending, id), sent := c.sent - {id});
    assert OneLiveSocket(d) by { SameSockets(c, d); }
    assert OneAttempt(d) && (Quiet(c) <==> Quiet(d)) by { SameSockets(c, d); }
  }

  lemma SameSockets(c: Client, d: Client)
    requires d == c.(pending := d.pending, sent := d.sent)
    ensures (OneLiveSocket(c) <==> OneLiveSocket(d)) && (OneAttempt(c) <==> OneAttempt(d)) && (Quiet(c) <==> Quiet(d))
  {
  }

  lemma DigestKeeps(c: Client, message: Message)
    requires Transport(c) && c.socket.Some? && !message.Broken?
    ensures Transport(Digest(c, message))
  {
    hide Drop, Accept, Quiet;
    var d := Accept(c, message.note);
    AcceptKeeps(c, message.note);
    if message.Ack? { RetireKeeps(d, message.id); }
    assert d.socket == c.socket by { AcceptFrame(c, message.note); }
    assert c.state != Blocked && c.authorized by { BlockedHasNoSocket(c); }
    assert d.state == c.state && d.authorized == c.authorized by { AcceptFrame(c, message.note); }
  }

  lemma ReceiveKeeps(c: Client, n: nat, message: Message)
    requires Transport(c)
    ensures Transport(Receive(c, n, message))
  {
    hide Transport, Flush, Digest, Block;
    if Current(c) && c.socket == Some(n) {
      if message.Broken? || !message.note.ours {
        BlockKeeps(c);
      } else {
        DigestKeeps(c, message);
        FlushKeeps(Digest(c, message));
      }
    }
  }

  lemma ClosedKeeps(c: Client, n: nat, refused: bool)
    requires Transport(c)
    requires n < |c.wires| && c.wires[n].phase == Dead
    ensures Transport(Closed(c, n, refused))
  {
    if c.socket == Some(n) && !c.disposed {
      var d := c.(socket := None, synced := false);
      if !refused { ReconnectKeeps(d); }
    }
  }

  lemma AuthorizationKeeps(c: Client, ready: bool)
    requires Transport(c)
    ensures Transport(SetAuthorization(c, ready))
  {
    if ready { ConnectKeeps(c.(authorized := true)); }
  }

  lemma WireKeeps(c: Client, n: nat, w: Wire)
    requires Transport(c) && n < |c.wires| && w.epoch == c.wires[n].epoch
    requires Live(w) ==> Live(c.wires[n])
    ensures Transport(c.(wires := c.wires[n := w]))
  {
  }

  lemma AcceptKeeps(c: Client, note: Note)
    requires Transport(c)
    ensures Transport(Accept(c, note))
  {
  }

  lemma DestroyKeeps(c: Client)
    requires Transport(c)
    ensures Transport(Destroy(c))
  {
  }

  lemma TakeFrame(s: System, n: nat, verdict: Verdict, canEdit: bool)
    requires n < |s.client.wires| && s.client.wires[n].up != []
    ensures var w := Take(s, n, verdict, canEdit).client.wires;
            n < |w| && Take(s, n, verdict, canEdit).client == s.client.(wires := s.client.wires[n := w[n]]) &&
            w[n].epoch == s.client.wires[n].epoch && w[n].phase == s.client.wires[n].phase
  {
    hide Snapshot;
  }

  lemma ServerKeeps(s: System, e: Event)
    requires Transport(s.client) && Enabled(s, e)
    requires e.ServerTook? || e.ServerSynced? || e.ServerBroke? || e.ServerJoined?
    ensures Transport(Step(s, e).client)
  {
    hide Transport, Take;
    var c := s.client;
    match e {
      case ServerTook(n, verdict, canEdit) =>
        TakeFrame(s, n, verdict, canEdit);
        WireKeeps(c, n, Take(s, n, verdict, canEdit).client.wires[n]);
      case ServerSynced(n, canEdit) =>
        WireKeeps(c, n, c.wires[n].(down := c.wires[n].down + [Sync(Snapshot(s, canEdit))]));
      case ServerBroke(n) =>
        WireKeeps(c, n, c.wires[n].(down := c.wires[n].down + [Broken]));
      case ServerJoined(_) =>
    }
  }

  lemma NetworkKeeps(s: System, e: Event)
    requires Transport(s.client) && Enabled(s, e)
    requires e.SocketOpened? || e.SocketCongested? || e.SocketFailed? || e.IdentityIs?
    ensures Transport(Step(s, e).client)
  {
    var c := s.client;
    match e {
      case SocketOpened(n) => WireKeeps(c, n, c.wires[n].(phase := Open));
      case SocketCongested(n, congested) => WireKeeps(c, n, c.wires[n].(congested := congested));
      case _ =>
    }
  }

  lemma StepKeepsTransport(s: System, e: Event)
    requires Transport(s.client) && Enabled(s, e)
    ensures Transport(Step(s, e).client)
  {
    hide Transport, Block, Connect, AnswerSession, Changed, Accept, Receive, Closed, SetAuthorization, Destroy, Take, Push;
    var c := s.client;
    match e {
      case Typed(edit) => ChangedKeeps(c, edit);
      case ConnectCalled => ConnectKeeps(c);
      case SessionAnswered(epoch, outcome) => SessionKeeps(c, epoch, outcome);
      case TimerFired(handle) => TimerKeeps(c, handle);
      case SocketClosed(n, refused) =>
        WireKeeps(c, n, c.wires[n].(phase := Dead));
        ClosedKeeps(c.(wires := c.wires[n := c.wires[n].(phase := Dead)]), n, refused);
      case Delivered(n) =>
        WireKeeps(c, n, c.wires[n].(down := c.wires[n].down[1..]));
        ReceiveKeeps(c.(wires := c.wires[n := c.wires[n].(down := c.wires[n].down[1..])]), n, c.wires[n].down[0]);
      case NoteAccepted(note) => AcceptKeeps(c, note);
      case AuthorizationSet(ready) => AuthorizationKeeps(c, ready);
      case BlockCalled => BlockKeeps(c);
      case DestroyCalled => DestroyKeeps(c);
      case ServerTook(_, _, _) => ServerKeeps(s, e);
      case ServerSynced(_, _) => ServerKeeps(s, e);
      case ServerBroke(_) => ServerKeeps(s, e);
      case ServerJoined(_) => ServerKeeps(s, e);
      case _ => NetworkKeeps(s, e);
    }
  }

  lemma TimerKeeps(c: Client, handle: nat)
    requires Transport(c) && handle in c.armed
    ensures Transport(Connect(c.(armed := c.armed - {handle})))
  {
    ConnectKeeps(c.(armed := c.armed - {handle}));
  }

  // ----- what client, network and server keep together

  /** How many local edits have been acknowledged. */
  function Acked(s: System): int {
    |s.edits| - |s.client.pending|
  }

  /** The edits that may be on their way: all acknowledged ones and the next. */
  function Frontier(s: System): int {
    if Acked(s) < |s.edits| then Acked(s) + 1 else |s.edits|
  }

  function Min(a: int, b: int): int {
    if a < b then a else b
  }

  ghost predicate Ledger(s: System) {
    NoDup(Ids(s.edits)) &&
    0 <= Acked(s) <= |s.applied| <= |s.edits| &&
    s.client.pending == s.edits[Acked(s)..] &&
    s.applied == Ids(s.edits)[..|s.applied|]
  }

  ghost predicate Traffic(s: System, w: Wire)
    requires 0 <= Acked(s)
  {
    (forall e <- w.up :: e in s.edits[..Frontier(s)]) &&
    (forall m <- w.down :: !m.Broken? ==> m.note.document <= s.document && m.note.revision <= s.revision) &&
    (forall m <- w.down :: m.Ack? ==> m.id in s.applied[..Min(Frontier(s), |s.applied|)])
  }

  ghost predicate Contents(s: System) {
    (forall id <- s.client.document :: id in s.document || id in Ids(s.client.pending)) &&
    (forall e <- s.edits :: e.id in s.client.document) &&
    (forall id <- s.applied :: id in s.document) &&
    s.client.revision <= s.revision
  }

  ghost predicate Durable(s: System) {
    Ledger(s) && Contents(s) && forall w <- s.client.wires :: Traffic(s, w)
  }

  /** Only connection state differs: queues, edits and document are the same, new sockets are empty. */
  ghost predicate SameQueues(c: Client, d: Client) {
    d.pending == c.pending && d.document == c.document && d.revision == c.revision &&
    forall w <- d.wires :: (w.up == [] && w.down == []) || exists v <- c.wires :: v.up == w.up && v.down == w.down
  }

  lemma CloseSameQueues(c: Client, d: Client)
    requires d.wires == CloseWire(c.wires, c.socket)
    requires d.pending == c.pending && d.document == c.document && d.revision == c.revision
    ensures SameQueues(c, d)
  {
    forall w <- d.wires ensures exists v <- c.wires :: v.up == w.up && v.down == w.down {
      var i :| 0 <= i < |d.wires| && d.wires[i] == w;
      assert c.wires[i] in c.wires;
    }
  }

  lemma WiresSame(c: Client, d: Client)
    requires d.wires == c.wires && d.pending == c.pending && d.document == c.document && d.revision == c.revision
    ensures SameQueues(c, d)
  {
  }

  lemma SessionSameQueues(c: Client, epoch: nat, outcome: SessionOutcome)
    ensures SameQueues(c, AnswerSession(c, epoch, outcome))
  {
    var d := AnswerSession(c, epoch, outcome);
    if d.wires == CloseWire(c.wires, c.socket) { CloseSameQueues(c, d); }
  }

  lemma SameQueuesDurable(s: System, d: Client)
    requires Durable(s) && SameQueues(s.client, d)
    ensures Durable(s.(client := d))
  {
    var t := s.(client := d);
    forall w <- d.wires ensures Traffic(t, w) {
      if !(w.up == [] && w.down == []) {
        var v :| v in s.client.wires && v.up == w.up && v.down == w.down;
        assert Traffic(s, v);
      }
    }
  }

  /** Closing, connecting, retrying, blocking, fencing and destroying touch no queue. */
  lemma ConnectionDurable(s: System, d: Client)
    requires Durable(s)
    requires d == Block(s.client) || d == Connect(s.client) || d == Reconnect(s.client) || d == Destroy(s.client) ||
             d == SetAuthorization(s.client, true) || d == SetAuthorization(s.client, false)
    ensures Durable(s.(client := d))
  {
    hide Durable, Disarm, CloseWire, SameQueues;
    var c := s.client;
    assert d.wires == c.wires || d.wires == CloseWire(c.wires, c.socket);
    if d.wires != c.wires { CloseSameQueues(c, d); } else { WiresSame(c, d); }
    SameQueuesDurable(s, d);
  }

  lemma WireDurable(s: System, n: nat, w: Wire)
    requires Durable(s) && n < |s.client.wires|
    requires Traffic(s, w)
    ensures Durable(SetWire(s, n, w))
  {
    var t := SetWire(s, n, w);
    forall v <- t.client.wires ensures Traffic(t, v) {
      assert v == w || v in s.client.wires;
      assert Traffic(s, v);
    }
  }

  lemma InPrefix<T>(s: seq<T>, x: T, i: nat, t: seq<T>, j: nat)
    requires i <= |s| && j <= |t| && i <= j && s <= t && x in s[..i]
    ensures x in t[..j]
  {
    var k :| 0 <= k < i && s[k] == x;
    assert t[..j][k] == x;
  }

  /** Server state only grows, so traffic that was right stays right. */
  lemma TrafficMonotone(s: System, t: System, w: Wire)
    requires 0 <= Acked(s) <= Acked(t) && 0 <= Frontier(s) <= Frontier(t)
    requires |s.client.pending| <= |s.edits| && |t.client.pending| <= |t.edits|
    requires s.edits <= t.edits && s.applied <= t.applied && s.document <= t.document && s.revision <= t.revision
    requires Traffic(s, w)
    ensures Traffic(t, w)
  {
    forall e <- w.up ensures e in t.edits[..Frontier(t)] {
      InPrefix(s.edits, e, Frontier(s), t.edits, Frontier(t));
    }
    forall m <- w.down | m.Ack? ensures m.id in t.applied[..Min(Frontier(t), |t.applied|)] {
      InPrefix(s.applied, m.id, Min(Frontier(s), |s.applied|), t.applied, Min(Frontier(t), |t.applied|));
    }
  }

  lemma FlushDurable(s: System)
    requires Durable(s) && Transport(s.client)
    ensures Durable(s.(client := Flush(s.client)))
  {
    var c := s.client;
    FlushKeeps(c);
    if MayFlush(c) && c.pending != [] {
      var n := c.socket.value;
      var w := c.wires[n];
      if w.congested {
        CloseSameQueues(c, Flush(c));
        SameQueuesDurable(s, Flush(c));
      } else {
        var w' := w.(up := w.up + [c.pending[0]]);
        assert s.edits[..Frontier(s)][Acked(s)] == c.pending[0];
        assert Traffic(s, w') by { assert Traffic(s, w); }
        WireDurable(s, n, w');
        SameQueuesDurable(SetWire(s, n, w'), Flush(c));
      }
    }
  }

  lemma AcceptDurable(s: System, note: Note)
    requires Durable(s) && note.document <= s.document && note.revision <= s.revision
    ensures Durable(s.(client := Accept(s.client, note)))
  {
    var t := s.(client := Accept(s.client, note));
    forall w <- t.client.wires ensures Traffic(t, w) { assert Traffic(s, w); }
  }

  lemma IdsAt(edits: seq<Edit>, i: nat)
    requires i < |edits|
    ensures Ids(edits)[i] == edits[i].id && edits[i].id in Ids(edits)
  {
  }

  /** An acknowledged id is an older edit, already gone, or the head of the queue. */
  lemma AckDropsHead(s: System, id: nat)
    requires Ledger(s) && id in s.applied[..Min(Frontier(s), |s.applied|)]
    ensures Drop(s.client.pending, id) == s.client.pending ||
            (s.client.pending != [] && Acked(s) < |s.applied| && s.client.pending[0].id == id &&
             Drop(s.client.pending, id) == s.client.pending[1..])
  {
    var i :| 0 <= i < Min(Frontier(s), |s.applied|) && s.applied[i] == id;
    IdsAt(s.edits, i);
    if i < Acked(s) {
      forall e <- s.client.pending ensures e.id != id {
        var j :| 0 <= j < |s.client.pending| && s.client.pending[j] == e;
        IdsAt(s.edits, Acked(s) + j);
      }
      DropMeaning(s.client.pending, id);
    }
  }

  lemma RetireDurable(s: System, id: nat)
    requires Durable(s) && id in s.applied[..Min(Frontier(s), |s.applied|)]
    ensures Durable(s.(client := s.client.(pending := Drop(s.client.pending, id), sent := s.client.sent - {id})))
  {
    var c := s.client;
    var t := s.(client := c.(pending := Drop(c.pending, id), sent := c.sent - {id}));
    AckDropsHead(s, id);
    assert id in s.applied;
    forall w <- t.client.wires ensures Traffic(t, w) { TrafficMonotone(s, t, w); }
    if t.client.pending != c.pending {
      forall x <- t.client.document ensures x in s.document || x in Ids(t.client.pending) {
        if x !in s.document {
          var j :| 0 <= j < |c.pending| && Ids(c.pending)[j] == x;
          assert Ids(t.client.pending)[j - 1] == x;
        }
      }
    }
  }

  lemma DigestDurable(s: System, message: Message)
    requires Durable(s) && !message.Broken?
    requires message.note.document <= s.document && message.note.revision <= s.revision
    requires message.Ack? ==> message.id in s.applied[..Min(Frontier(s), |s.applied|)]
    ensures Durable(s.(client := Digest(s.client, message)))
  {
    hide Drop, Durable;
    var t := s.(client := Accept(s.client, message.note));
    AcceptDurable(s, message.note);
    AcceptFrame(s.client, message.note);
    if message.Ack? {
      RetireDurable(t, message.id);
      var u := t.(client := t.client.(pending := Drop(t.client.pending, message.id), sent := t.client.sent - {message.id}));
      SameQueuesDurable(u, Digest(s.client, message));
    } else {
      SameQueuesDurable(t, Digest(s.client, message));
    }
  }

  /** Before its flush or block, a new edit joins history, queue and document. */
  lemma TypedDurable(s: System, edit: Edit)
    requires Durable(s) && edit.id !in Ids(s.edits)
    ensures Durable(s.(edits := s.edits + [edit],
                       client := s.client.(pending := s.client.pending + [edit], document := s.client.document + {edit.id})))
  {
    var c := s.client;
    var t := s.(edits := s.edits + [edit],
                client := c.(pending := c.pending + [edit], document := c.document + {edit.id}));
    assert Ids(t.edits) == Ids(s.edits) + [edit.id];
    assert Ids(t.client.pending) == Ids(c.pending) + [edit.id];
    forall w <- t.client.wires ensures Traffic(t, w) { TrafficMonotone(s, t, w); }
  }

  lemma ChangedDurable(s: System, edit: Edit)
    requires Durable(s) && Transport(s.client) && !s.client.disposed && edit.id !in Ids(s.edits)
    ensures Durable(s.(edits := s.edits + [edit], client := Changed(s.client, edit)))
  {
    hide Durable, Transport;
    var c := s.client;
    var d := c.(pending := c.pending + [edit], document := c.document + {edit.id});
    var t := s.(edits := s.edits + [edit], client := d);
    TypedDurable(s, edit);
    if edit.size > MAX_UPDATE_BYTES {
      SameQueuesDurable(t, d.(oversized := true));
      ConnectionDurable(t.(client := d.(oversized := true)), Block(d.(oversized := true)));
    } else if !Current(d) {
      ConnectionDurable(t, Block(d));
    } else {
      ChangedFlushes(c, edit);
      FlushDurable(t);
    }
  }

  lemma ChangedFlushes(c: Client, edit: Edit)
    requires Transport(c) && edit.size <= MAX_UPDATE_BYTES
    ensures Transport(c.(pending := c.pending + [edit], document := c.document + {edit.id}))
  {
  }

  /** What arrives next on any socket is a duplicate or exactly the next edit. */
  lemma ApplyDurable(s: System, e: Edit)
    requires Durable(s) && e in s.edits[..Frontier(s)]
    ensures Durable(Apply(s, e.id))
    ensures e.id in Apply(s, e.id).applied[..Min(Frontier(s), |Apply(s, e.id).applied|)]
  {
    var t := Apply(s, e.id);
    var i :| 0 <= i < Frontier(s) && s.edits[i] == e;
    IdsAt(s.edits, i);
    if i < |s.applied| {
      assert s.applied[i] == e.id;
    } else {
      assert forall j :: 0 <= j < |s.applied| ==> s.applied[j] == Ids(s.edits)[j];
      assert t.applied == Ids(s.edits)[..|t.applied|];
    }
    assert t.applied[i] == e.id;
    assert t.applied[..Min(Frontier(s), |t.applied|)][i] == e.id;
    forall w <- t.client.wires ensures Traffic(t, w) { TrafficMonotone(s, t, w); }
  }

  /** Taking an update off the wire and committing it. */
  lemma CommitDurable(s: System, n: nat)
    requires Durable(s) && n < |s.client.wires| && s.client.wires[n].up != []
    ensures var w := s.client.wires[n];
            var t := SetWire(s, n, w.(up := w.up[1..]));
            Durable(t) && Durable(Apply(t, w.up[0].id)) &&
            w.up[0].id in Apply(t, w.up[0].id).applied[..Min(Frontier(s), |Apply(t, w.up[0].id).applied|)]
  {
    hide NoDup, Contents;
    var w := s.client.wires[n];
    assert Traffic(s, w) && w.up[0] in w.up;
    WireDurable(s, n, w.(up := w.up[1..]));
    ApplyDurable(SetWire(s, n, w.(up := w.up[1..])), w.up[0]);
  }

  lemma AnswerDurable(s: System, n: nat, message: Message)
    requires Durable(s) && n < |s.client.wires|
    requires !message.Broken? ==> message.note.document <= s.document && message.note.revision <= s.revision
    requires message.Ack? ==> message.id in s.applied[..Min(Frontier(s), |s.applied|)]
    ensures Durable(Push(s, n, message))
  {
    hide NoDup, Contents;
    var w := s.client.wires[n];
    assert Traffic(s, w);
    WireDurable(s, n, w.(down := w.down + [message]));
  }

  lemma TakeDurable(s: System, n: nat, verdict: Verdict, canEdit: bool)
    requires Durable(s) && n < |s.client.wires| && s.client.wires[n].up != []
    ensures Durable(Take(s, n, verdict, canEdit))
  {
    hide Durable, Ledger, Traffic, Contents;
    CommitDurable(s, n);
    var w := s.client.wires[n];
    var u := Apply(SetWire(s, n, w.(up := w.up[1..])), w.up[0].id);
    if verdict.Acknowledged? {
      AnswerDurable(u, n, Ack(w.up[0].id, Snapshot(u, canEdit)));
    }
  }

  lemma DeliverDurable(s: System, n: nat)
    requires Durable(s) && Transport(s.client) && n < |s.client.wires| && s.client.wires[n].down != []
    ensures Durable(Deliver(s, n))
  {
    hide Transport;
    var w := s.client.wires[n];
    var w' := w.(down := w.down[1..]);
    var message := w.down[0];
    assert Traffic(s, w) && message in w.down;
    WireDurable(s, n, w');
    WireKeeps(s.client, n, w');
    ReceiveDurable(SetWire(s, n, w'), n, message);
  }

  lemma ReceiveDurable(s: System, n: nat, message: Message)
    requires Durable(s) && Transport(s.client)
    requires !message.Broken? ==> message.note.document <= s.document && message.note.revision <= s.revision
    requires message.Ack? ==> message.id in s.applied[..Min(Frontier(s), |s.applied|)]
    ensures Durable(s.(client := Receive(s.client, n, message)))
  {
    hide Durable, Transport, Digest, Flush, Block;
    if Current(s.client) && s.client.socket == Some(n) {
      if message.Broken? || !message.note.ours {
        ConnectionDurable(s, Block(s.client));
      } else {
        DigestDurable(s, message);
        DigestKeeps(s.client, message);
        FlushDurable(s.(client := Digest(s.client, message)));
      }
    }
  }

  lemma PushDurable(s: System, e: Event)
    requires Durable(s) && Enabled(s, e)
    requires e.ServerSynced? || e.ServerBroke? || e.ServerJoined?
    ensures Durable(Step(s, e))
  {
    match e {
      case ServerSynced(n, canEdit) => AnswerDurable(s, n, Sync(Snapshot(s, canEdit)));
      case ServerBroke(n) => AnswerDurable(s, n, Broken);
      case ServerJoined(_) =>
        forall w <- s.client.wires ensures Traffic(Step(s, e), w) { TrafficMonotone(s, Step(s, e), w); }
    }
  }

  lemma SocketDurable(s: System, e: Event)
    requires Durable(s) && Enabled(s, e)
    requires e.SocketOpened? || e.SocketCongested? || e.SocketFailed? || e.SocketClosed? || e.IdentityIs? || e.TimerFired?
    ensures Durable(Step(s, e))
  {
    hide Durable;
    var c := s.client;
    match e {
      case SocketFailed(_) => CloseSameQueues(c, c.(wires := CloseWire(c.wires, c.socket))); SameQueuesDurable(s, Step(s, e).client);
      case SocketClosed(n, refused) =>
        var w := c.wires[n].(phase := Dead);
        assert c.wires[n] in c.wires;
        var t := SetWire(s, n, w);
        SameQueuesDurable(s, t.client);
        if t.client.socket == Some(n) && !c.disposed {
          var d := t.client.(socket := None, synced := false);
          SameQueuesDurable(t, d);
          ConnectionDurable(t.(client := d), if refused then Block(d) else Reconnect(d));
        }
      case TimerFired(handle) =>
        SameQueuesDurable(s, c.(armed := c.armed - {handle}));
        ConnectionDurable(s.(client := c.(armed := c.armed - {handle})), Connect(c.(armed := c.armed - {handle})));
      case IdentityIs(same) => SameQueuesDurable(s, c.(identity := same));
      case SocketOpened(n) =>
        assert c.wires[n] in c.wires;
        SameQueuesDurable(s, SetWire(s, n, c.wires[n].(phase := Open)).client);
      case SocketCongested(n, congested) =>
        assert c.wires[n] in c.wires;
        SameQueuesDurable(s, SetWire(s, n, c.wires[n].(congested := congested)).client);
    }
  }

  lemma StepKeepsDurable(s: System, e: Event)
    requires Durable(s) && Transport(s.client) && Enabled(s, e)
    ensures Durable(Step(s, e))
  {
    hide Durable, Transport, Block, Connect, AnswerSession, Changed, Accept, Closed, SetAuthorization, Destroy, Take, Push, Deliver;
    var c := s.client;
    match e {
      case Typed(edit) => if !c.disposed { ChangedDurable(s, edit); } else { assert Changed(c, edit) == c by { DisposedIgnores(c, edit); } }
      case ConnectCalled => ConnectionDurable(s, Connect(c));
      case SessionAnswered(epoch, outcome) =>
        SessionSameQueues(c, epoch, outcome);
        SameQueuesDurable(s, AnswerSession(c, epoch, outcome));
      case Delivered(n) => DeliverDurable(s, n);
      case NoteAccepted(note) => AcceptDurable(s, note);
      case AuthorizationSet(ready) => ConnectionDurable(s, SetAuthorization(c, ready));
      case BlockCalled => ConnectionDurable(s, Block(c));
      case DestroyCalled => ConnectionDurable(s, Destroy(c));
      case ServerTook(n, verdict, canEdit) => TakeDurable(s, n, verdict, canEdit);
      case ServerSynced(_, _) => PushDurable(s, e);
      case ServerBroke(_) => PushDurable(s, e);
      case ServerJoined(_) => PushDurable(s, e);
      case _ => SocketDurable(s, e);
    }
  }

  lemma DisposedIgnores(c: Client, edit: Edit)
    requires c.disposed
    ensures Changed(c, edit) == c
  {
  }

  // ----- whole runs

  /** States and events of one run: `ss[k + 1]` follows `ss[k]` by `es[k]`. */
  ghost predicate Behaviour(ss: seq<System>, es: seq<Event>) {
    |ss| == |es| + 1 && Initial(ss[0]) && forall k :: 0 <= k < |es| ==> Follows(ss, es, k)
  }

  ghost predicate Follows(ss: seq<System>, es: seq<Event>, k: nat)
    requires k < |es| && k + 1 < |ss|
  {
    Enabled(ss[k], es[k]) && ss[k + 1] == Step(ss[k], es[k])
  }

  lemma {:induction false} AlwaysSound(ss: seq<System>, es: seq<Event>, k: nat)
    requires Behaviour(ss, es) && k < |ss|
    ensures Transport(ss[k].client) && Durable(ss[k])
  {
    hide Step, Enabled;
    if k > 0 {
      AlwaysSound(ss, es, k - 1);
      assert Follows(ss, es, k - 1);
      StepKeepsTransport(ss[k - 1], es[k - 1]);
      StepKeepsDurable(ss[k - 1], es[k - 1]);
    }
  }

  // ----- the promises

  /**
    No edit is lost and order is kept: the server's first-time applications are a
    prefix of the local edits, the queue is a suffix of them, and together they cover
    every edit.
  */
  lemma NoEditLost(ss: seq<System>, es: seq<Event>, k: nat)
    requires Behaviour(ss, es) && k < |ss|
    ensures var s := ss[k];
            s.applied <= Ids(s.edits) && |s.client.pending| <= |s.edits| &&
            s.client.pending == s.edits[|s.edits| - |s.client.pending|..] &&
            forall e <- s.edits :: e in s.client.pending || e.id in s.applied
  {
    AlwaysSound(ss, es, k);
    var s := ss[k];
    forall e <- s.edits ensures e in s.client.pending || e.id in s.applied {
      var i :| 0 <= i < |s.edits| && s.edits[i] == e;
      IdsAt(s.edits, i);
      if i < Acked(s) {
        assert s.applied[i] == e.id;
      } else {
        assert s.client.pending[i - Acked(s)] == e;
      }
    }
  }

  /** History is append-only, and so is what the server has made durable. */
  lemma {:induction false} NothingUndone(ss: seq<System>, es: seq<Event>, j: nat, k: nat)
    requires Behaviour(ss, es) && j <= k < |ss|
    ensures ss[j].edits <= ss[k].edits && ss[j].applied <= ss[k].applied
    ensures ss[j].client.revision <= ss[k].client.revision
    ensures ss[j].client.document <= ss[k].client.document
  {
    hide Step, Enabled;
    if j < k {
      NothingUndone(ss, es, j, k - 1);
      assert Follows(ss, es, k - 1);
      StepUndoesNothing(ss[k - 1], es[k - 1]);
    }
  }

  /** Nothing a connection goes through touches the document or the revision. */
  ghost predicate SameText(c: Client, d: Client) {
    d.revision == c.revision && d.document == c.document
  }

  lemma FlushAndBlockFrame(c: Client)
    ensures SameText(c, Flush(c)) && SameText(c, Block(c))
  {
    hide CloseWire, NextToSend;
  }

  lemma ConnectionFrame(c: Client, epoch: nat, outcome: SessionOutcome, n: nat, flag: bool)
    ensures SameText(c, Connect(c)) && SameText(c, SetAuthorization(c, flag)) && SameText(c, Destroy(c))
    ensures SameText(c, AnswerSession(c, epoch, outcome)) && SameText(c, Closed(c, n, flag))
  {
    hide CloseWire, Block;
    EpochFrame(c);
    EpochFrame(c.(authorized := true));
    EpochFrame(c.(authorized := false));
    EpochFrame(c.(disposed := true));
    FlushAndBlockFrame(c.(sessions := c.sessions - {epoch}));
    FlushAndBlockFrame(c.(socket := None, synced := false));
  }

  lemma EpochFrame(c: Client)
    ensures SameText(c, LeaveEpoch(c)) && SameText(c, Fence(c))
  {
  }

  lemma ChangedGrows(c: Client, edit: Edit)
    ensures c.revision == Changed(c, edit).revision && c.document <= Changed(c, edit).document
  {
    hide Flush, Block;
    var d := c.(pending := c.pending + [edit], document := c.document + {edit.id});
    FlushAndBlockFrame(d);
    FlushAndBlockFrame(d.(oversized := true));
  }

  lemma DigestGrows(c: Client, message: Message)
    requires !message.Broken?
    ensures c.revision <= Digest(c, message).revision && c.document <= Digest(c, message).document
  {
    hide Drop;
  }

  lemma ReceiveUndoesNothing(c: Client, n: nat, message: Message)
    ensures c.revision <= Receive(c, n, message).revision && c.document <= Receive(c, n, message).document
  {
    hide Flush, Block, Digest;
    FlushAndBlockFrame(c);
    if !message.Broken? {
      DigestGrows(c, message);
      FlushAndBlockFrame(Digest(c, message));
    }
  }

  lemma StepUndoesNothing(s: System, e: Event)
    requires Enabled(s, e)
    ensures s.edits <= Step(s, e).edits && s.applied <= Step(s, e).applied
    ensures s.client.revision <= Step(s, e).client.revision
    ensures s.client.document <= Step(s, e).client.document
  {
    hide Receive, CloseWire, Changed, Connect, SetAuthorization, Destroy, AnswerSession, Closed, Block;
    var c := s.client;
    match e {
      case Typed(edit) => ChangedGrows(c, edit);
      case ConnectCalled => ConnectionFrame(c, 0, Granted, 0, false);
      case TimerFired(handle) => ConnectionFrame(c.(armed := c.armed - {handle}), 0, Granted, 0, false);
      case SessionAnswered(epoch, outcome) => ConnectionFrame(c, epoch, outcome, 0, false);
      case AuthorizationSet(ready) => ConnectionFrame(c, 0, Granted, 0, ready);
      case SocketClosed(n, refused) => ConnectionFrame(c.(wires := c.wires[n := c.wires[n].(phase := Dead)]), 0, Granted, n, refused);
      case BlockCalled => FlushAndBlockFrame(c);
      case DestroyCalled => ConnectionFrame(c, 0, Granted, 0, false);
      case Delivered(n) =>
        var w := c.wires[n];
        ReceiveUndoesNothing(SetWire(s, n, w.(down := w.down[1..])).client, n, w.down[0]);
      case _ =>
    }
  }

  /**
    Whenever an event puts an update on a wire, it is the oldest pending edit, alone in
    flight, on the one live socket of an authorised, synced, editable, unblocked client.
  */
  lemma SendsOnlyWhenAllowed(ss: seq<System>, es: seq<Event>, k: nat, n: nat)
    requires Behaviour(ss, es) && k < |es| && n < |ss[k + 1].client.wires|
    requires var before := if n < |ss[k].client.wires| then |ss[k].client.wires[n].up| else 0;
             |ss[k + 1].client.wires[n].up| > before
    ensures var c := ss[k + 1].client;
            Current(c) && c.authorized && c.synced && c.canEdit && c.state != Blocked && !c.oversized &&
            c.socket == Some(n) && Live(c.wires[n]) && c.wires[n].epoch == c.epoch &&
            c.pending != [] && c.sent == {c.pending[0].id} &&
            c.wires[n].up[|c.wires[n].up| - 1] == c.pending[0]
  {
    hide Step, Enabled;
    AlwaysSound(ss, es, k);
    AlwaysSound(ss, es, k + 1);
    assert Follows(ss, es, k);
    StepSends(ss[k], es[k], n);
  }

  function SentOn(c: Client, n: nat): nat {
    if n < |c.wires| then |c.wires[n].up| else 0
  }

  lemma FlushSends(c: Client, n: nat)
    requires Transport(c) && SentOn(Flush(c), n) > SentOn(c, n)
    ensures MayFlush(c) && c.pending != [] && c.socket == Some(n) && Flush(c).sent == {c.pending[0].id}
    ensures Flush(c) == c.(wires := Flush(c).wires, sent := Flush(c).sent)
    ensures Flush(c).wires[n] == c.wires[n].(up := c.wires[n].up + [c.pending[0]])
  {
    FlushKeeps(c);
  }

  ghost predicate SentAsAllowed(c: Client, n: nat) {
    Current(c) && c.authorized && c.synced && c.canEdit && c.state != Blocked && !c.oversized &&
    c.socket == Some(n) && n < |c.wires| && Live(c.wires[n]) && c.wires[n].epoch == c.epoch &&
    c.pending != [] && c.sent == {c.pending[0].id} &&
    c.wires[n].up != [] && c.wires[n].up[|c.wires[n].up| - 1] == c.pending[0]
  }

  lemma FlushIsAllowed(c: Client, n: nat)
    requires Transport(c) && SentOn(Flush(c), n) > SentOn(c, n)
    ensures SentAsAllowed(Flush(c), n)
  {
    FlushSends(c, n);
  }

  lemma DigestSends(s: System, m: nat, n: nat)
    requires Enabled(s, Delivered(m)) && !s.client.wires[m].down[0].Broken?
    ensures var d := SetWire(s, m, s.client.wires[m].(down := s.client.wires[m].down[1..])).client;
            SentOn(Digest(d, s.client.wires[m].down[0]), n) == SentOn(s.client, n)
  {
  }

  lemma StepSends(s: System, e: Event, n: nat)
    requires Transport(s.client) && Enabled(s, e) && Transport(Step(s, e).client)
    requires SentOn(Step(s, e).client, n) > SentOn(s.client, n)
    ensures SentAsAllowed(Step(s, e).client, n)
  {
    hide Step, Flush, Digest, Transport, SentAsAllowed;
    var c := s.client;
    OnlyFlushSends(s, e, n);
    match e {
      case Typed(edit) =>
        ChangedFlushes(c, edit);
        FlushIsAllowed(c.(pending := c.pending + [edit], document := c.document + {edit.id}), n);
      case Delivered(m) =>
        var d := SetWire(s, m, c.wires[m].(down := c.wires[m].down[1..])).client;
        WireKeeps(c, m, d.wires[m]);
        DigestKeeps(d, c.wires[m].down[0]);
        DigestSends(s, m, n);
        FlushIsAllowed(Digest(d, c.wires[m].down[0]), n);
      case _ =>
    }
  }

  lemma TypedSends(s: System, edit: Edit, n: nat)
    requires Transport(s.client) && Enabled(s, Typed(edit))
    requires SentOn(Step(s, Typed(edit)).client, n) > SentOn(s.client, n)
    ensures var d := s.client.(pending := s.client.pending + [edit], document := s.client.document + {edit.id});
            edit.size <= MAX_UPDATE_BYTES && Step(s, Typed(edit)).client == Flush(d)
  {
    hide Transport, Flush, Disarm;
  }

  lemma DeliveredSends(s: System, m: nat, n: nat)
    requires Transport(s.client) && Enabled(s, Delivered(m))
    requires SentOn(Step(s, Delivered(m)).client, n) > SentOn(s.client, n)
    ensures var d := SetWire(s, m, s.client.wires[m].(down := s.client.wires[m].down[1..])).client;
            var message := s.client.wires[m].down[0];
            d.socket.Some? && !message.Broken? && Step(s, Delivered(m)).client == Flush(Digest(d, message))
  {
    hide Transport, Flush, Digest, Disarm;
  }

  /** No upward queue of an old wire is longer, and those of new wires are empty. */
  ghost predicate Silent(vs: seq<Wire>, ws: seq<Wire>) {
    |vs| <= |ws| && forall n :: 0 <= n < |ws| ==> |ws[n].up| <= if n < |vs| then |vs[n].up| else 0
  }

  lemma SilentAlone(vs: seq<Wire>, socket: Option<nat>, epoch: nat)
    ensures Silent(vs, vs) && Silent(vs, CloseWire(vs, socket)) && Silent(vs, vs + [Wire(epoch, Opening, false, [], [])])
  {
  }

  lemma SilentUpdate(vs: seq<Wire>, n: nat, w: Wire)
    requires n < |vs| && |w.up| <= |vs[n].up|
    ensures Silent(vs, vs[n := w])
  {
  }

  lemma SilentTwice(us: seq<Wire>, vs: seq<Wire>, ws: seq<Wire>)
    requires Silent(us, vs) && Silent(vs, ws)
    ensures Silent(us, ws)
  {
  }

  lemma ConnectionIsSilent(c: Client, epoch: nat, outcome: SessionOutcome, n: nat, flag: bool)
    ensures Silent(c.wires, Connect(c).wires) && Silent(c.wires, Block(c).wires) && Silent(c.wires, Destroy(c).wires)
    ensures Silent(c.wires, SetAuthorization(c, flag).wires)
    ensures Silent(c.wires, AnswerSession(c, epoch, outcome).wires) && Silent(c.wires, Closed(c, n, flag).wires)
  {
    hide Silent, CloseWire;
    SilentAlone(c.wires, c.socket, epoch);
    SilentAlone(c.wires, None, epoch);
  }

  lemma TakeIsSilent(s: System, n: nat, verdict: Verdict, canEdit: bool)
    requires n < |s.client.wires| && s.client.wires[n].up != []
    ensures Silent(s.client.wires, Take(s, n, verdict, canEdit).client.wires)
  {
  }

  lemma WiresAreSilent(s: System, e: Event)
    requires Enabled(s, e)
    requires e.SocketOpened? || e.SocketCongested? || e.SocketFailed? || e.ServerSynced? || e.ServerBroke? || e.ServerJoined? ||
             e.IdentityIs?
    ensures Silent(s.client.wires, Step(s, e).client.wires)
  {
    hide CloseWire, Silent;
    var c := s.client;
    SilentAlone(c.wires, c.socket, 0);
    match e {
      case SocketOpened(n) => SilentUpdate(c.wires, n, c.wires[n].(phase := Open));
      case SocketCongested(n, congested) => SilentUpdate(c.wires, n, c.wires[n].(congested := congested));
      case ServerSynced(n, canEdit) => SilentUpdate(c.wires, n, c.wires[n].(down := c.wires[n].down + [Sync(Snapshot(s, canEdit))]));
      case ServerBroke(n) => SilentUpdate(c.wires, n, c.wires[n].(down := c.wires[n].down + [Broken]));
      case _ =>
    }
  }

  lemma OthersSendNothing(s: System, e: Event, n: nat)
    requires Enabled(s, e) && !e.Typed? && !e.Delivered?
    ensures SentOn(Step(s, e).client, n) <= SentOn(s.client, n)
  {
    hide Connect, SetAuthorization, Destroy, AnswerSession, Closed, Block, Accept, Take, Silent, CloseWire, SentOn, Push;
    var c := s.client;
    match e {
      case ConnectCalled => ConnectionIsSilent(c, 0, Granted, 0, false);
      case TimerFired(handle) => ConnectionIsSilent(c.(armed := c.armed - {handle}), 0, Granted, 0, false);
      case SessionAnswered(epoch, outcome) => ConnectionIsSilent(c, epoch, outcome, 0, false);
      case AuthorizationSet(ready) => ConnectionIsSilent(c, 0, Granted, 0, ready);
      case DestroyCalled => ConnectionIsSilent(c, 0, Granted, 0, false);
      case BlockCalled => ConnectionIsSilent(c, 0, Granted, 0, false);
      case SocketClosed(m, refused) =>
        var d := c.(wires := c.wires[m := c.wires[m].(phase := Dead)]);
        SilentUpdate(c.wires, m, c.wires[m].(phase := Dead));
        ConnectionIsSilent(d, 0, Granted, m, refused);
        SilentTwice(c.wires, d.wires, Step(s, e).client.wires);
      case NoteAccepted(note) =>
        AcceptFrame(c, note);
        SilentAlone(c.wires, None, 0);
      case ServerTook(m, verdict, canEdit) => TakeIsSilent(s, m, verdict, canEdit);
      case _ => WiresAreSilent(s, e);
    }
    SilentQueue(c, Step(s, e).client, n);
  }

  lemma SilentQueue(c: Client, d: Client, n: nat)
    requires Silent(c.wires, d.wires)
    ensures SentOn(d, n) <= SentOn(c, n)
  {
  }

  /** Every step but a typed edit or a delivered message leaves the upward queues alone or drains them. */
  lemma OnlyFlushSends(s: System, e: Event, n: nat)
    requires Transport(s.client) && Enabled(s, e)
    requires SentOn(Step(s, e).client, n) > SentOn(s.client, n)
    ensures e.Typed? || e.Delivered?
    ensures e.Typed? ==>
              var d := s.client.(pending := s.client.pending + [e.edit], document := s.client.document + {e.edit.id});
              e.edit.size <= MAX_UPDATE_BYTES && Step(s, e).client == Flush(d)
    ensures e.Delivered? ==>
              var d := SetWire(s, e.n, s.client.wires[e.n].(down := s.client.wires[e.n].down[1..])).client;
              var message := s.client.wires[e.n].down[0];
              d.socket.Some? && !message.Broken? && Step(s, e).client == Flush(Digest(d, message))
  {
    hide Step, Transport, Flush, Digest;
    if e.Typed? {
      TypedSends(s, e.edit, n);
    } else if e.Delivered? {
      DeliveredSends(s, e.n, n);
    } else {
      OthersSendNothing(s, e, n);
      assert false;
    }
  }

  lemma AtMostOneLiveSocket(ss: seq<System>, es: seq<Event>, k: nat)
    requires Behaviour(ss, es) && k < |ss|
    ensures var c := ss[k].client;
            forall m, n :: 0 <= m < |c.wires| && 0 <= n < |c.wires| && Live(c.wires[m]) && Live(c.wires[n]) ==>
              m == n && c.socket == Some(n) && c.wires[n].epoch == c.epoch && !c.disposed
    ensures ss[k].client.sent == {} || (ss[k].client.pending != [] && ss[k].client.sent == {ss[k].client.pending[0].id})
    ensures |ss[k].client.armed| <= 1
  {
    AlwaysSound(ss, es, k);
  }

  lemma BlockedFrame(c: Client)
    ensures Block(c).state == Blocked && Flush(c).state == c.state
  {
    hide CloseWire, NextToSend;
  }

  lemma BlockedClient(c: Client, edit: Edit, epoch: nat, outcome: SessionOutcome, note: Note)
    requires Transport(c) && c.state == Blocked
    ensures Changed(c, edit).state == Blocked && Accept(c, note).state == Blocked
    ensures epoch in c.sessions ==> AnswerSession(c, epoch, outcome).state == Blocked
  {
    hide OneLiveSocket, OldestInFlight, Flush, Block;
    var d := c.(pending := c.pending + [edit], document := c.document + {edit.id});
    BlockedFrame(d);
    BlockedFrame(d.(oversized := true));
    BlockedFrame(c.(sessions := c.sessions - {epoch}));
  }

  lemma BlockedStep(s: System, e: Event)
    requires Transport(s.client) && s.client.state == Blocked && Enabled(s, e)
    ensures Step(s, e).client.state == Blocked
  {
    hide Changed, Accept, AnswerSession, Digest, Flush, CloseWire, OneLiveSocket, OldestInFlight;
    match e {
      case Typed(edit) => BlockedClient(s.client, edit, 0, Granted, Note(false, 0, false, {}));
      case SessionAnswered(epoch, outcome) => BlockedClient(s.client, Edit(0, 0), epoch, outcome, Note(false, 0, false, {}));
      case NoteAccepted(note) => BlockedClient(s.client, Edit(0, 0), 0, Granted, note);
      case _ =>
    }
  }

  /** `blocked` is absorbing, and nothing is sent from it. */
  lemma {:induction false} BlockedForever(ss: seq<System>, es: seq<Event>, j: nat, k: nat, n: nat)
    requires Behaviour(ss, es) && j <= k < |ss| && ss[j].client.state == Blocked
    ensures ss[k].client.state == Blocked && SentOn(ss[k].client, n) <= SentOn(ss[j].client, n)
  {
    hide Step, Enabled;
    if j < k {
      BlockedForever(ss, es, j, k - 1, n);
      AlwaysSound(ss, es, k - 1);
      assert Follows(ss, es, k - 1);
      BlockedStep(ss[k - 1], es[k - 1]);
      if SentOn(ss[k].client, n) > SentOn(ss[k - 1].client, n) {
        SendsOnlyWhenAllowed(ss, es, k - 1, n);
      }
    }
  }

  /** With nothing pending, a message carrying the server's document makes both documents equal. */
  lemma Converged(ss: seq<System>, es: seq<Event>, k: nat)
    requires Behaviour(ss, es) && k < |es| && es[k].Delivered?
    requires var w := ss[k].client.wires; var n := es[k].n;
             n < |w| && w[n].down != [] && !w[n].down[0].Broken? && w[n].down[0].note.ours &&
             Current(ss[k].client) && ss[k].client.socket == Some(n) && ss[k].document <= w[n].down[0].note.document
    requires ss[k + 1].client.pending == []
    ensures ss[k + 1].client.document == ss[k + 1].document
    ensures forall e <- ss[k + 1].edits :: e.id in ss[k + 1].document
  {
    AlwaysSound(ss, es, k);
    AlwaysSound(ss, es, k + 1);
    assert Follows(ss, es, k);
    DeliveryJoins(ss[k], es[k].n);
  }

  lemma DeliveryJoins(s: System, n: nat)
    requires n < |s.client.wires| && s.client.wires[n].down != []
    requires var m := s.client.wires[n].down[0];
             !m.Broken? && m.note.ours && Current(s.client) && s.client.socket == Some(n)
    ensures s.client.wires[n].down[0].note.document <= Deliver(s, n).client.document
    ensures Deliver(s, n).document == s.document
  {
    hide Flush, Digest, Block;
    var w := s.client.wires[n];
    var d := SetWire(s, n, w.(down := w.down[1..])).client;
    DigestJoins(d, w.down[0]);
    FlushAndBlockFrame(Digest(d, w.down[0]));
  }

  lemma DigestJoins(c: Client, message: Message)
    requires !message.Broken? && message.note.ours && Current(c)
    ensures message.note.document <= Digest(c, message).document
  {
    hide Drop;
  }

  // ----- draining a backlog

  ghost predicate Reaches(s: System, events: seq<Event>, t: System)
    decreases |events|
  {
    if events == [] then s == t
    else Enabled(s, events[0]) && Reaches(Step(s, events[0]), events[1..], t)
  }

  /** A healthy connection with the oldest edit alone under way, or with nothing left to send. */
  ghost predicate Healthy(s: System, n: nat) {
    var c := s.client;
    Current(c) && c.authorized && c.canEdit && c.synced && c.state == Connected &&
    c.socket == Some(n) && n < |c.wires| &&
    c.wires[n].phase == Open && !c.wires[n].congested && c.wires[n].down == [] &&
    (if c.pending == [] then c.sent == {} && c.wires[n].up == []
     else c.sent == {c.pending[0].id} && c.wires[n].up == [c.pending[0]])
  }

  /** One commit and one ack retire the oldest edit and send the next. */
  lemma DrainOne(s: System, n: nat) returns (t: System)
    requires Transport(s.client) && Durable(s) && Healthy(s, n) && s.client.pending != []
    ensures Enabled(s, ServerTook(n, Acknowledged, true)) && Enabled(Step(s, ServerTook(n, Acknowledged, true)), Delivered(n))
    ensures t == Step(Step(s, ServerTook(n, Acknowledged, true)), Delivered(n))
    ensures Transport(t.client) && Durable(t) && Healthy(t, n)
    ensures t.client.pending == s.client.pending[1..] && t.edits == s.edits
  {
    var u := Step(s, ServerTook(n, Acknowledged, true));
    t := Step(u, Delivered(n));
    StepKeepsTransport(s, ServerTook(n, Acknowledged, true));
    StepKeepsDurable(s, ServerTook(n, Acknowledged, true));
    StepKeepsTransport(u, Delivered(n));
    StepKeepsDurable(u, Delivered(n));
    DrainState(s, n);
  }

  lemma DrainTake(s: System, n: nat) returns (note: Note)
    requires Healthy(s, n) && s.client.pending != []
    requires Contents(s)
    ensures var c := s.client;
            Take(s, n, Acknowledged, true).client ==
              c.(wires := c.wires[n := c.wires[n].(up := [], down := [Ack(c.pending[0].id, note)])])
    ensures Take(s, n, Acknowledged, true).edits == s.edits
    ensures note.ours && note.canEdit && note.revision >= s.client.revision
  {
    var c := s.client;
    var w := c.wires[n];
    var u := Apply(SetWire(s, n, w.(up := w.up[1..])), w.up[0].id);
    note := Snapshot(u, true);
    assert w.up[1..] == [] && w.down + [Ack(w.up[0].id, note)] == [Ack(c.pending[0].id, note)];
    assert u.client.wires[n := w.(up := [], down := [Ack(c.pending[0].id, note)])] ==
           c.wires[n := w.(up := [], down := [Ack(c.pending[0].id, note)])];
  }

  lemma DrainReceive(c: Client, n: nat, message: Message)
    requires Current(c) && c.authorized && c.canEdit && c.socket == Some(n) && n < |c.wires|
    requires c.wires[n].phase == Open && !c.wires[n].congested && c.wires[n].down == [] && c.wires[n].up == []
    requires c.pending != [] && c.sent == {c.pending[0].id}
    requires forall e <- c.pending :: e.size <= MAX_UPDATE_BYTES
    requires message.Ack? && message.id == c.pending[0].id
    requires message.note.ours && message.note.canEdit && message.note.revision >= c.revision
    ensures var d := Receive(c, n, message);
            d.pending == c.pending[1..] && Current(d) && d.authorized && d.canEdit && d.synced && d.state == Connected &&
            d.socket == Some(n) && |d.wires| == |c.wires| &&
            d.wires[n].phase == Open && !d.wires[n].congested && d.wires[n].down == [] &&
            (if d.pending == [] then d.sent == {} && d.wires[n].up == []
             else d.sent == {d.pending[0].id} && d.wires[n].up == [d.pending[0]])
  {
    var d := Digest(c, message);
    assert d.sent == {} && d.pending == c.pending[1..];
    if d.pending != [] {
      assert d.pending[0] in c.pending;
      assert NextToSend(d.pending, {}) == Some(d.pending[0]);
    }
  }

  lemma DrainState(s: System, n: nat)
    requires Transport(s.client) && Durable(s) && Healthy(s, n) && s.client.pending != []
    ensures var t := Deliver(Take(s, n, Acknowledged, true), n);
            Healthy(t, n) && t.client.pending == s.client.pending[1..] && t.edits == s.edits
  {
    hide Take, Receive, Ledger, Traffic;
    var c := s.client;
    var note := DrainTake(s, n);
    var u := Take(s, n, Acknowledged, true);
    var w := u.client.wires[n];
    var d := SetWire(u, n, w.(down := w.down[1..])).client;
    assert w.down[1..] == [];
    DrainReceive(d, n, Ack(c.pending[0].id, note));
    assert Deliver(u, n).client == Receive(d, n, Ack(c.pending[0].id, note));
  }

  /** From a healthy connection a backlog of any length drains, in order, to the server. */
  lemma {:induction false} BacklogDrains(s: System, n: nat) returns (events: seq<Event>, t: System)
    requires Transport(s.client) && Durable(s) && Healthy(s, n)
    ensures Reaches(s, events, t) && |events| == 2 * |s.client.pending|
    ensures t.client.pending == [] && t.edits == s.edits && t.applied == Ids(t.edits)
    decreases |s.client.pending|
  {
    if s.client.pending == [] {
      events, t := [], s;
    } else {
      var u := DrainOne(s, n);
      var rest;
      rest, t := BacklogDrains(u, n);
      events := [ServerTook(n, Acknowledged, true)] + ([Delivered(n)] + rest);
      ReachesTwo(s, ServerTook(n, Acknowledged, true), Delivered(n), rest, t);
    }
  }

  lemma ReachesTwo(s: System, e: Event, f: Event, rest: seq<Event>, t: System)
    requires Enabled(s, e) && Enabled(Step(s, e), f) && Reaches(Step(Step(s, e), f), rest, t)
    ensures Reaches(s, [e] + ([f] + rest), t)
  {
    hide Step, Enabled;
    assert ([e] + ([f] + rest))[1..] == [f] + rest;
    assert ([f] + rest)[1..] == rest;
    assert Reaches(Step(s, e), [f] + rest, t);
  }

  // ----- reaching a healthy connection

  lemma {:induction false} ReachesFurther(s: System, events: seq<Event>, t: System, more: seq<Event>, u: System)
    requires Reaches(s, events, t) && Reaches(t, more, u)
    ensures Reaches(s, events + more, u)
    decreases |events|
  {
    hide Step, Enabled;
    if events == [] {
      assert events + more == more;
    } else {
      ReachesFurther(Step(s, events[0]), events[1..], t, more, u);
      assert (events + more)[1..] == events[1..] + more;
    }
  }

  /** One more event behind a stretch, with both invariants. */
  lemma Then(s: System, events: seq<Event>, t: System, e: Event) returns (u: System)
    requires Reaches(s, events, t) && Enabled(t, e) && Transport(t.client) && Durable(t)
    ensures u == Step(t, e) && Reaches(s, events + [e], u) && Transport(u.client) && Durable(u)
  {
    hide Step, Enabled, Transport, Durable;
    u := Step(t, e);
    assert [e][1..] == [];
    ReachesFurther(s, events, t, [e], u);
    StepKeepsTransport(t, e);
    StepKeepsDurable(t, e);
  }

  /** A session request of the newest epoch is out, and the attempt starts clean. */
  ghost predicate Asking(c: Client) {
    Current(c) && c.authorized && c.state == Connecting && c.epoch in c.sessions && c.socket.None? && c.sent == {} && !c.synced
  }

  /** What opens a new attempt: a return of authorisation, or a call of connect. */
  function Wake(c: Client): Event {
    if c.authorized then ConnectCalled else AuthorizationSet(true)
  }

  lemma WakeAsks(s: System)
    requires Current(s.client) && s.client.state != Blocked
    ensures var t := Step(s, Wake(s.client)); Asking(t.client) && t.edits == s.edits && t.client.pending == s.client.pending
  {
  }

  lemma GrantOpens(s: System)
    requires Asking(s.client)
    ensures var c, n := s.client, |s.client.wires|;
            var granted := Step(s, SessionAnswered(c.epoch, Granted));
            Enabled(granted, SocketOpened(n)) &&
            var t := Step(granted, SocketOpened(n));
            t == s.(client := c.(sessions := c.sessions - {c.epoch}, socket := Some(n),
                                 wires := c.wires + [Wire(c.epoch, Open, false, [], [])]))
  {
    var c, n := s.client, |s.client.wires|;
    assert (c.wires + [Wire(c.epoch, Opening, false, [], [])])[n := Wire(c.epoch, Open, false, [], [])] ==
           c.wires + [Wire(c.epoch, Open, false, [], [])];
  }

  /** A socket of an attempt that has just opened, nothing on it yet. */
  ghost predicate JustOpen(c: Client, n: nat) {
    Current(c) && c.authorized && c.state == Connecting && c.sent == {} && c.socket == Some(n) && n < |c.wires| &&
    c.wires[n].phase == Open && !c.wires[n].congested && c.wires[n].up == [] && c.wires[n].down == []
  }

  lemma SyncReceived(s: System, c: Client, n: nat, note: Note)
    requires JustOpen(c, n) && note.ours && note.canEdit && c.revision <= note.revision
    requires forall e <- c.pending :: e.size <= MAX_UPDATE_BYTES
    ensures Healthy(s.(client := Receive(c, n, Sync(note))), n) && Receive(c, n, Sync(note)).pending == c.pending
  {
    var d := Digest(c, Sync(note));
    if d.pending != [] {
      assert d.pending[0] in c.pending;
      assert NextToSend(d.pending, {}) == Some(d.pending[0]);
      assert [] + [d.pending[0]] == [d.pending[0]];
    }
  }

  /** The first sync on a fresh socket makes the connection healthy. */
  lemma SyncHeals(s: System, n: nat)
    requires JustOpen(s.client, n)
    requires s.client.revision <= s.revision && forall e <- s.client.pending :: e.size <= MAX_UPDATE_BYTES
    ensures var synced := Step(s, ServerSynced(n, true));
            Enabled(synced, Delivered(n)) &&
            var t := Step(synced, Delivered(n));
            Healthy(t, n) && t.edits == s.edits && t.client.pending == s.client.pending
  {
    hide Receive, Healthy;
    var c := s.client;
    var w, message := c.wires[n], Sync(Snapshot(s, true));
    assert [] + [message] == [message] && [message][1..] == [];
    assert c.wires[n := w.(down := [message])][n := w] == c.wires;
    SyncReceived(s, c, n, message.note);
  }

  lemma NothingOversized(s: System)
    requires Transport(s.client) && Durable(s) && s.client.state != Blocked
    ensures s.client.revision <= s.revision && forall e <- s.client.pending :: e.size <= MAX_UPDATE_BYTES
  {
  }

  /** From whatever unblocked, signed-in state, five steps lead to a healthy connection. */
  lemma Recovers(s: System) returns (events: seq<Event>, n: nat, t: System)
    requires Transport(s.client) && Durable(s) && Current(s.client) && s.client.state != Blocked
    ensures Reaches(s, events, t) && |events| == 5 && Healthy(t, n)
    ensures Transport(t.client) && Durable(t) && t.edits == s.edits && t.client.pending == s.client.pending
  {
    hide Transport, Durable, Step, Enabled, Reaches, Healthy;
    WakeEnabled(s);
    WakeAsks(s);
    n := |Step(s, Wake(s.client)).client.wires|;
    var asking := Then(s, [], s, Wake(s.client));
    assert [] + [Wake(s.client)] == [Wake(s.client)];
    var granted := Granting(s, [Wake(s.client)], asking);
    events := [Wake(s.client)] + [SessionAnswered(asking.client.epoch, Granted)];
    GrantOpens(asking);
    var joined := Then(s, events, granted, SocketOpened(n));
    events := events + [SocketOpened(n)];
    NothingOversized(joined);
    SyncHeals(joined, n);
    SyncEnabled(joined, n);
    var synced := Then(s, events, joined, ServerSynced(n, true));
    events := events + [ServerSynced(n, true)];
    t := Then(s, events, synced, Delivered(n));
    events := events + [Delivered(n)];
  }

  lemma WakeEnabled(s: System)
    ensures Enabled(s, Wake(s.client)) && Reaches(s, [], s)
  {
  }

  lemma Granting(s: System, events: seq<Event>, t: System) returns (u: System)
    requires Reaches(s, events, t) && Asking(t.client) && Transport(t.client) && Durable(t)
    ensures u == Step(t, SessionAnswered(t.client.epoch, Granted))
    ensures Reaches(s, events + [SessionAnswered(t.client.epoch, Granted)], u) && Transport(u.client) && Durable(u)
  {
    hide Transport, Durable, Step, Reaches;
    u := Then(s, events, t, SessionAnswered(t.client.epoch, Granted));
  }

  lemma SyncEnabled(s: System, n: nat)
    requires n < |s.client.wires|
    ensures Enabled(s, ServerSynced(n, true))
  {
  }

  /** In every run: while the note is neither blocked nor left, some steps bring every edit to the server. */
  lemma BacklogCanDrain(ss: seq<System>, es: seq<Event>, k: nat) returns (events: seq<Event>, t: System)
    requires Behaviour(ss, es) && k < |ss| && Current(ss[k].client) && ss[k].client.state != Blocked
    ensures Reaches(ss[k], events, t) && |events| == 5 + 2 * |ss[k].client.pending|
    ensures t.client.pending == [] && t.edits == ss[k].edits && t.applied == Ids(t.edits)
  {
    hide Transport, Durable, Step, Enabled, Reaches, Healthy;
    AlwaysSound(ss, es, k);
    var first, n, healthy := Recovers(ss[k]);
    var rest;
    rest, t := BacklogDrains(healthy, n);
    ReachesFurther(ss[k], first, healthy, rest, t);
    events := first + rest;
  }
}
