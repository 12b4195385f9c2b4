/**
  What becomes of every part of a live note's connection, told from the events of a
  run alone: what blocks it, starts it, retries it, what is queued, sent and retired,
  and what the server keeps.
*/
module LiveNoteChanges {
  import opened Basics
  import opened LiveNote

  // ----- what an event means for the connection

  /** The message that arrives with the event. */
  function Arriving(s: System, e: Event): Message
    requires Enabled(s, e) && e.Delivered?
  {
    s.client.wires[e.n].down[0]
  }

  /** It arrives on the held socket of an open note whose account has not changed. */
  predicate Hears(s: System, e: Event) {
    e.Delivered? && !s.client.disposed && s.client.identity && s.client.socket == Some(e.n)
  }

  predicate Understands(s: System, e: Event)
    requires Enabled(s, e)
  {
    Hears(s, e) && !Arriving(s, e).Broken? && Arriving(s, e).note.ours
  }

  predicate LosesSocket(s: System, e: Event) {
    e.SocketClosed? && !s.client.disposed && s.client.socket == Some(e.n)
  }

  /** The answer of the attempt that is under way, for an account that has not changed. */
  predicate Answers(s: System, e: Event, outcome: SessionOutcome) {
    e == SessionAnswered(s.client.epoch, outcome) && !s.client.disposed && s.client.identity
  }

  predicate Blocks(s: System, e: Event)
    requires Enabled(s, e)
  {
    || e.BlockCalled?
    || (LosesSocket(s, e) && e.refused)
    || (Hears(s, e) && (Arriving(s, e).Broken? || !Arriving(s, e).note.ours))
    || Answers(s, e, Denied)
    || (e.Typed? && !s.client.disposed && (e.edit.size > 64 * 1024 || !s.client.identity))
  }

  /** A new attempt: asked for, due, or allowed again. */
  predicate Starts(s: System, e: Event) {
    !s.client.disposed && s.client.identity && s.client.state != Blocked &&
    (((e.ConnectCalled? || e.TimerFired?) && s.client.authorized) || (e == AuthorizationSet(true) && !s.client.authorized))
  }

  predicate Suspends(s: System, e: Event) {
    e == AuthorizationSet(false) && s.client.authorized &&
    !s.client.disposed && s.client.identity && s.client.state != Blocked
  }

  /** The connection or the attempt is lost, and a timer is set for the next one. */
  predicate Retries(s: System, e: Event) {
    ((LosesSocket(s, e) && !e.refused) || Answers(s, e, Unreachable)) &&
    s.client.identity && s.client.authorized && s.client.state != Blocked
  }

  ghost predicate ConnectionLaw(s: System, e: Event, d: Client)
    requires Enabled(s, e)
  {
    var c := s.client;
    d.state == (if Blocks(s, e) then Blocked
                else if Starts(s, e) then Connecting
                else if Retries(s, e) || Suspends(s, e) then Offline
                else if Understands(s, e) then Connected
                else c.state) &&
    d.epoch == c.epoch + (if Blocks(s, e) || Starts(s, e) || Suspends(s, e) || e.DestroyCalled? then 1 else 0) &&
    d.socket == (if Blocks(s, e) || Starts(s, e) || Suspends(s, e) || LosesSocket(s, e) then None
                 else if Answers(s, e, Granted) then Some(|c.wires|)
                 else c.socket) &&
    d.synced == (if Starts(s, e) || Suspends(s, e) || LosesSocket(s, e) then false else c.synced || Understands(s, e)) &&
    d.armed == (if Retries(s, e) then {c.handles}
                else if Blocks(s, e) || Starts(s, e) || Suspends(s, e) || e.DestroyCalled? || e.TimerFired? then {}
                else c.armed) &&
    d.sessions == (if e.SessionAnswered? then c.sessions - {e.epoch} else c.sessions) +
                  (if Starts(s, e) then {c.epoch + 1} else {}) &&
    d.handles == c.handles + (if Retries(s, e) then 1 else 0)
  }

  ghost predicate AccountLaw(s: System, e: Event, d: Client)
    requires Enabled(s, e)
  {
    var c := s.client;
    d.authorized == (if Suspends(s, e) then false else if Starts(s, e) then true else c.authorized) &&
    d.identity == (if e.IdentityIs? then e.same else c.identity) &&
    (d.disposed <==> c.disposed || e.DestroyCalled?) &&
    (d.oversized <==> c.oversized || (e.Typed? && !c.disposed && e.edit.size > 64 * 1024))
  }

  lemma FlushFrame(c: Client)
    ensures Flush(c) == c.(wires := Flush(c).wires, sent := Flush(c).sent)
  {
    hide NextToSend, CloseWire;
  }

  /** A local edit enters queue and document, then blocks the note or is sent on. */
  lemma ChangedExactly(c: Client, edit: Edit)
    ensures var d := c.(pending := c.pending + [edit], document := c.document + {edit.id});
            Changed(c, edit) ==
            if c.disposed then c
            else if edit.size > 64 * 1024 then Block(d.(oversized := true))
            else if !c.identity then Block(d)
            else Flush(d)
  {
    hide Flush, Block;
  }

  lemma BlockExactly(c: Client)
    ensures Block(c) == c.(state := Blocked, epoch := c.epoch + 1, timer := None, socket := None, armed := Disarm(c),
                           wires := CloseWire(c.wires, c.socket))
  {
    hide Disarm, CloseWire;
  }

  lemma TypedConnects(s: System, e: Event)
    requires Transport(s.client) && Enabled(s, e) && e.Typed?
    ensures ConnectionLaw(s, e, Step(s, e).client) && AccountLaw(s, e, Step(s, e).client)
  {
    hide Changed, Block, Flush, CloseWire, OldestInFlight, OneLiveSocket;
    var d := s.client.(pending := s.client.pending + [e.edit], document := s.client.document + {e.edit.id});
    ChangedExactly(s.client, e.edit);
    FlushFrame(d);
    BlockExactly(d);
    BlockExactly(d.(oversized := true));
  }

  /** Connection and account are the same, apart from the identity that was announced. */
  ghost predicate SameConnection(e: Event, c: Client, d: Client) {
    d.state == c.state && d.epoch == c.epoch && d.socket == c.socket && d.synced == c.synced && d.armed == c.armed &&
    d.sessions == c.sessions && d.handles == c.handles && d.authorized == c.authorized && d.disposed == c.disposed &&
    d.oversized == c.oversized && d.identity == if e.IdentityIs? then e.same else c.identity
  }

  lemma QuietConnects(s: System, e: Event, d: Client)
    requires Enabled(s, e) && SameConnection(e, s.client, d) && !Hears(s, e)
    requires e.IdentityIs? || e.SocketOpened? || e.SocketCongested? || e.SocketFailed? || e.NoteAccepted? || e.Delivered? ||
             e.ServerTook? || e.ServerSynced? || e.ServerBroke? || e.ServerJoined?
    ensures ConnectionLaw(s, e, d) && AccountLaw(s, e, d)
  {
  }

  lemma AcceptExactly(c: Client, note: Note)
    requires note.ours && !c.disposed && c.identity
    ensures Accept(c, note) == c.(document := c.document + note.document,
                                  revision := if note.revision >= c.revision then note.revision else c.revision,
                                  canEdit := if note.revision >= c.revision then note.canEdit else c.canEdit)
  {
  }

  /** What a message the client understands does, before anything is sent. */
  lemma DigestExactly(c: Client, message: Message)
    requires !message.Broken? && message.note.ours && !c.disposed && c.identity
    ensures var note := message.note;
            Digest(c, message) ==
            c.(document := c.document + note.document,
               revision := if note.revision >= c.revision then note.revision else c.revision,
               canEdit := if note.revision >= c.revision then note.canEdit else c.canEdit,
               pending := if message.Ack? then Drop(c.pending, message.id) else c.pending,
               sent := if message.Ack? then c.sent - {message.id} else c.sent,
               synced := true, state := Connected)
  {
    hide Drop, Accept;
    AcceptExactly(c, message.note);
  }

  lemma HeardConnects(s: System, e: Event)
    requires Transport(s.client) && Enabled(s, e) && Hears(s, e)
    ensures ConnectionLaw(s, e, Step(s, e).client) && AccountLaw(s, e, Step(s, e).client)
  {
    hide Flush, CloseWire, Digest, OldestInFlight, OneLiveSocket;
    var w := s.client.wires[e.n];
    var d := SetWire(s, e.n, w.(down := w.down[1..])).client;
    if Understands(s, e) {
      DigestExactly(d, w.down[0]);
      FlushFrame(Digest(d, w.down[0]));
    }
  }

  lemma UnheardConnects(s: System, e: Event)
    requires Enabled(s, e) && e.Delivered? && !Hears(s, e)
    ensures SameConnection(e, s.client, Step(s, e).client)
  {
    hide Flush, Digest, Block;
  }

  lemma ClosedConnects(s: System, e: Event)
    requires Transport(s.client) && Enabled(s, e) && e.SocketClosed?
    ensures ConnectionLaw(s, e, Step(s, e).client) && AccountLaw(s, e, Step(s, e).client)
  {
    hide Flush, CloseWire, OldestInFlight;
  }

  lemma AnsweredConnects(s: System, e: Event)
    requires Transport(s.client) && Enabled(s, e) && e.SessionAnswered?
    ensures ConnectionLaw(s, e, Step(s, e).client) && AccountLaw(s, e, Step(s, e).client)
  {
    hide Flush, CloseWire, OldestInFlight, OneLiveSocket;
  }

  lemma StartedConnects(s: System, e: Event)
    requires Transport(s.client) && Enabled(s, e) && (e.ConnectCalled? || e.TimerFired?)
    ensures ConnectionLaw(s, e, Step(s, e).client) && AccountLaw(s, e, Step(s, e).client)
  {
    hide CloseWire, OldestInFlight, OneLiveSocket;
  }

  lemma AuthorizedConnects(s: System, e: Event)
    requires Transport(s.client) && Enabled(s, e) && e.AuthorizationSet?
    ensures ConnectionLaw(s, e, Step(s, e).client) && AccountLaw(s, e, Step(s, e).client)
  {
    hide CloseWire, OldestInFlight, OneLiveSocket;
  }

  lemma EndedConnects(s: System, e: Event)
    requires Transport(s.client) && Enabled(s, e) && (e.BlockCalled? || e.DestroyCalled?)
    ensures ConnectionLaw(s, e, Step(s, e).client) && AccountLaw(s, e, Step(s, e).client)
  {
    hide CloseWire, OldestInFlight, OneLiveSocket;
  }

  lemma OthersConnect(s: System, e: Event)
    requires Enabled(s, e)
    requires e.IdentityIs? || e.SocketOpened? || e.SocketCongested? || e.SocketFailed? || e.NoteAccepted?
    ensures SameConnection(e, s.client, Step(s, e).client)
  {
    hide CloseWire, Accept;
    if e.NoteAccepted? { AcceptFrame(s.client, e.note); }
  }

  lemma ServerConnects(s: System, e: Event)
    requires Enabled(s, e) && (e.ServerTook? || e.ServerSynced? || e.ServerBroke? || e.ServerJoined?)
    ensures SameConnection(e, s.client, Step(s, e).client)
  {
    hide Take, Snapshot;
    if e.ServerTook? { TakeFrame(s, e.n, e.verdict, e.canEdit); }
  }

  lemma StepConnects(s: System, e: Event)
    requires Transport(s.client) && Enabled(s, e)
    ensures ConnectionLaw(s, e, Step(s, e).client) && AccountLaw(s, e, Step(s, e).client)
  {
    hide Step, Enabled, Transport, ConnectionLaw, AccountLaw, Hears;
    if e.Typed? {
      TypedConnects(s, e);
    } else if Hears(s, e) {
      HeardConnects(s, e);
    } else if e.SocketClosed? {
      ClosedConnects(s, e);
    } else if e.SessionAnswered? {
      AnsweredConnects(s, e);
    } else if e.ConnectCalled? || e.TimerFired? {
      StartedConnects(s, e);
    } else if e.AuthorizationSet? {
      AuthorizedConnects(s, e);
    } else if e.BlockCalled? || e.DestroyCalled? {
      EndedConnects(s, e);
    } else {
      if e.Delivered? {
        UnheardConnects(s, e);
      } else if e.ServerTook? || e.ServerSynced? || e.ServerBroke? || e.ServerJoined? {
        ServerConnects(s, e);
      } else {
        OthersConnect(s, e);
      }
      QuietConnects(s, e, Step(s, e).client);
    }
  }

  /**
    A note that is not blocked becomes blocked exactly when it is told to, the server refuses the connection, a message
    is broken or about another note, the session is denied, or an edit is too large or made under another account.
  */
  lemma BlockedExactly(ss: seq<System>, es: seq<Event>, k: nat)
    requires Behaviour(ss, es) && k < |es| && ss[k].client.state != Blocked
    ensures ss[k + 1].client.state == Blocked <==>
              var c := ss[k].client;
              match es[k]
              case BlockCalled => true
              case SocketClosed(n, refused) => refused && c.socket == Some(n) && !c.disposed
              case Delivered(n) =>
                c.socket == Some(n) && !c.disposed && c.identity && n < |c.wires| && c.wires[n].down != [] &&
                (c.wires[n].down[0].Broken? || !c.wires[n].down[0].note.ours)
              case SessionAnswered(epoch, outcome) => outcome.Denied? && epoch == c.epoch && !c.disposed && c.identity
              case Typed(edit) => !c.disposed && (edit.size > 64 * 1024 || !c.identity)
              case _ => false
  {
    hide Step, Transport, Durable, Retries, Suspends, Starts, AccountLaw;
    AlwaysSound(ss, es, k);
    assert Follows(ss, es, k);
    StepConnects(ss[k], es[k]);
  }

  /** In every run the connection goes on as the laws say: state, epoch, socket, session, timer, account. */
  lemma ConnectsExactly(ss: seq<System>, es: seq<Event>, k: nat)
    requires Behaviour(ss, es) && k < |es|
    ensures Enabled(ss[k], es[k]) && ConnectionLaw(ss[k], es[k], ss[k + 1].client) && AccountLaw(ss[k], es[k], ss[k + 1].client)
  {
    hide Step, Enabled, Transport, Durable, ConnectionLaw, AccountLaw;
    AlwaysSound(ss, es, k);
    assert Follows(ss, es, k);
    StepConnects(ss[k], es[k]);
  }

  // ----- queue and document

  /** The note the client takes over: from a message it understands, or read for it over HTTP. */
  function Learned(s: System, e: Event): Option<Note>
    requires Enabled(s, e)
  {
    if Understands(s, e) then Some(Arriving(s, e).note)
    else if e.NoteAccepted? && e.note.ours && !s.client.disposed && s.client.identity then Some(e.note)
    else None
  }

  /** The local edit enters the queue. */
  predicate Queues(s: System, e: Event) {
    e.Typed? && !s.client.disposed
  }

  /** The acknowledgement of the oldest edit arrives. */
  predicate Retires(s: System, e: Event)
    requires Enabled(s, e)
  {
    Understands(s, e) && Arriving(s, e).Ack? && s.client.pending != [] && s.client.pending[0].id == Arriving(s, e).id
  }

  ghost predicate TextLaw(s: System, e: Event, d: Client)
    requires Enabled(s, e)
  {
    var c := s.client;
    d.pending == (if Queues(s, e) then c.pending + [e.edit] else if Retires(s, e) then c.pending[1..] else c.pending) &&
    d.document == c.document + (if Queues(s, e) then {e.edit.id} else {}) +
                  (if Learned(s, e).Some? then Learned(s, e).value.document else {}) &&
    (if Learned(s, e).Some? && Learned(s, e).value.revision >= c.revision
     then d.revision == Learned(s, e).value.revision && d.canEdit == Learned(s, e).value.canEdit
     else d.revision == c.revision && d.canEdit == c.canEdit)
  }

  /** Queue, document, revision and permission are the same. */
  ghost predicate SameNote(c: Client, d: Client) {
    d.pending == c.pending && d.document == c.document && d.revision == c.revision && d.canEdit == c.canEdit
  }

  lemma SameNoteText(s: System, e: Event, d: Client)
    requires Enabled(s, e) && SameNote(s.client, d) && !Queues(s, e) && !Understands(s, e) && Learned(s, e).None?
    ensures TextLaw(s, e, d)
  {
  }

  lemma TypedText(s: System, e: Event)
    requires Enabled(s, e) && e.Typed?
    ensures TextLaw(s, e, Step(s, e).client)
  {
    hide Changed, Block, Flush, CloseWire, Disarm;
    var d := s.client.(pending := s.client.pending + [e.edit], document := s.client.document + {e.edit.id});
    ChangedExactly(s.client, e.edit);
    FlushFrame(d);
    BlockExactly(d);
    BlockExactly(d.(oversized := true));
  }

  /** The acknowledged id is the head's, or has gone already. */
  lemma AckedHead(s: System, n: nat)
    requires Durable(s) && n < |s.client.wires| && s.client.wires[n].down != [] && s.client.wires[n].down[0].Ack?
    ensures var id, pending := s.client.wires[n].down[0].id, s.client.pending;
            Drop(pending, id) == if pending != [] && pending[0].id == id then pending[1..] else pending
  {
    var w := s.client.wires[n];
    assert Traffic(s, w) && w.down[0] in w.down;
    AckDropsHead(s, w.down[0].id);
  }

  lemma HeardText(s: System, e: Event)
    requires Durable(s) && Enabled(s, e) && Understands(s, e)
    ensures TextLaw(s, e, Step(s, e).client)
  {
    hide Flush, CloseWire, Digest, Drop, Durable;
    var w := s.client.wires[e.n];
    var d := SetWire(s, e.n, w.(down := w.down[1..])).client;
    if w.down[0].Ack? { AckedHead(s, e.n); }
    DigestExactly(d, w.down[0]);
    FlushFrame(Digest(d, w.down[0]));
  }

  lemma BlockSameNote(c: Client)
    ensures SameNote(c, Block(c)) && SameNote(c, LeaveEpoch(c)) && SameNote(c, Fence(c))
  {
    hide CloseWire, Disarm;
  }

  lemma AttemptSameNote(s: System, e: Event)
    requires Enabled(s, e) && (e.ConnectCalled? || e.TimerFired? || e.AuthorizationSet?)
    ensures SameNote(s.client, Step(s, e).client)
  {
    hide CloseWire, Disarm;
  }

  lemma LossSameNote(s: System, e: Event)
    requires Enabled(s, e) && (e.SessionAnswered? || e.SocketClosed? || (e.Delivered? && !Understands(s, e)))
    ensures SameNote(s.client, Step(s, e).client)
  {
    hide Block, Flush, Digest;
    match e {
      case SessionAnswered(epoch, _) => BlockSameNote(s.client.(sessions := s.client.sessions - {epoch}));
      case SocketClosed(n, _) =>
        BlockSameNote(s.client.(wires := s.client.wires[n := s.client.wires[n].(phase := Dead)], socket := None, synced := false));
      case Delivered(n) =>
        BlockSameNote(SetWire(s, n, s.client.wires[n].(down := s.client.wires[n].down[1..])).client);
    }
  }

  lemma OtherSameNote(s: System, e: Event)
    requires Enabled(s, e)
    requires e.IdentityIs? || e.SocketOpened? || e.SocketCongested? || e.SocketFailed? || e.BlockCalled? || e.DestroyCalled? ||
             e.ServerTook? || e.ServerSynced? || e.ServerBroke? || e.ServerJoined?
    ensures SameNote(s.client, Step(s, e).client)
  {
    hide CloseWire, Disarm, Take, Snapshot, Block, LeaveEpoch;
    match e {
      case ServerTook(n, verdict, canEdit) => TakeFrame(s, n, verdict, canEdit);
      case BlockCalled => BlockSameNote(s.client);
      case DestroyCalled => BlockSameNote(s.client.(disposed := true));
      case _ =>
    }
  }

  lemma StepText(s: System, e: Event)
    requires Durable(s) && Enabled(s, e)
    ensures TextLaw(s, e, Step(s, e).client)
  {
    hide Durable, Flush, Changed, Receive, Take, Connect, SetAuthorization, Closed, Block, Destroy, SameNote;
    if e.Typed? {
      TypedText(s, e);
    } else if Understands(s, e) {
      HeardText(s, e);
    } else if !e.NoteAccepted? {
      if e.ConnectCalled? || e.TimerFired? || e.AuthorizationSet? {
        AttemptSameNote(s, e);
      } else if e.SessionAnswered? || e.SocketClosed? || e.Delivered? {
        LossSameNote(s, e);
      } else {
        OtherSameNote(s, e);
      }
      SameNoteText(s, e, Step(s, e).client);
    }
  }

  /**
    The queue grows by each local edit and shrinks by the acknowledged head; the document joins local edits and the
    notes that arrive; revision and permission follow the newest note.
  */
  lemma TextExactly(ss: seq<System>, es: seq<Event>, k: nat)
    requires Behaviour(ss, es) && k < |es|
    ensures Enabled(ss[k], es[k]) && TextLaw(ss[k], es[k], ss[k + 1].client)
  {
    hide Step, Enabled, Transport, Durable, TextLaw;
    AlwaysSound(ss, es, k);
    assert Follows(ss, es, k);
    StepText(ss[k], es[k]);
  }

  // ----- sockets and sending

  /** What is still unacknowledged when the client comes to send. */
  function InFlight(s: System, e: Event): set<nat>
    requires Enabled(s, e)
  {
    if Understands(s, e) && Arriving(s, e).Ack? then s.client.sent - {Arriving(s, e).id} else s.client.sent
  }

  /** The client has something to send and may: `d` is the client after the event. */
  predicate MaySend(s: System, e: Event, d: Client)
    requires Enabled(s, e)
  {
    (Understands(s, e) || (e.Typed? && !s.client.disposed && s.client.identity && e.edit.size <= 64 * 1024)) &&
    s.client.authorized && d.synced && d.canEdit && d.state != Blocked && d.pending != [] && InFlight(s, e) == {} &&
    s.client.socket.Some? && s.client.socket.value < |s.client.wires| && s.client.wires[s.client.socket.value].phase == Open
  }

  predicate Sends(s: System, e: Event, d: Client)
    requires Enabled(s, e)
  {
    MaySend(s, e, d) && !s.client.wires[s.client.socket.value].congested
  }

  /** The client hangs up: it gives up the epoch, the socket failed, or its buffer is full. */
  predicate HangsUp(s: System, e: Event, d: Client)
    requires Enabled(s, e)
  {
    (Blocks(s, e) && !e.SocketClosed?) || Starts(s, e) || Suspends(s, e) || e.DestroyCalled? ||
    (e.SocketFailed? && s.client.socket == Some(e.n)) || (MaySend(s, e, d) && !Sends(s, e, d))
  }

  /** The answer the server puts on the wire, with its state as of now. */
  function Reply(s: System, e: Event): seq<Message>
    requires Enabled(s, e)
  {
    match e
    case ServerTook(n, Acknowledged, canEdit) =>
      var id := s.client.wires[n].up[0].id;
      [Ack(id, if id in s.applied then Note(true, s.revision, canEdit, s.document)
               else Note(true, s.revision + 1, canEdit, s.document + {id}))]
    case ServerSynced(_, canEdit) => [Sync(Note(true, s.revision, canEdit, s.document))]
    case ServerBroke(_) => [Broken]
    case _ => []
  }

  /** What is under way to the client on wire `n`. */
  function DownAfter(s: System, e: Event, n: nat): seq<Message>
    requires Enabled(s, e) && n < |s.client.wires|
  {
    var down := s.client.wires[n].down;
    if e.Delivered? && e.n == n then down[1..]
    else if (e.ServerTook? || e.ServerSynced? || e.ServerBroke?) && e.n == n then down + Reply(s, e)
    else down
  }

  /** What a wire the client already had does in the event. */
  ghost predicate WireLaw(s: System, e: Event, d: Client, n: nat)
    requires Enabled(s, e) && n < |s.client.wires|
  {
    var w := s.client.wires[n];
    n < |d.wires| && d.wires[n].epoch == w.epoch && d.wires[n].down == DownAfter(s, e, n) &&
    d.wires[n].phase == (if e == SocketOpened(n) then Open
                         else if e.SocketClosed? && e.n == n then Dead
                         else if HangsUp(s, e, d) && s.client.socket == Some(n) && w.phase != Dead then Closing
                         else w.phase) &&
    d.wires[n].congested == (if e.SocketCongested? && e.n == n then e.congested else w.congested) &&
    d.wires[n].up == (if e.ServerTook? && e.n == n then w.up[1..]
                      else if Sends(s, e, d) && s.client.socket == Some(n) then w.up + [d.pending[0]]
                      else w.up)
  }

  ghost predicate WiresLaw(s: System, e: Event, d: Client)
    requires Enabled(s, e)
  {
    |d.wires| >= |s.client.wires| && (forall n: nat :: n < |s.client.wires| ==> WireLaw(s, e, d, n)) &&
    d.wires[|s.client.wires|..] == (if Answers(s, e, Granted) then [Wire(s.client.epoch, Opening, false, [], [])] else []) &&
    d.sent == if Starts(s, e) then {} else if Sends(s, e, d) then {d.pending[0].id} else InFlight(s, e)
  }

  /** The flush, on the transport's invariant: the oldest edit goes out, or the socket is closed, or nothing happens. */
  lemma FlushExactly(c: Client)
    requires Transport(c)
    ensures Flush(c) ==
            if !(!c.disposed && c.identity && c.authorized && c.synced && c.canEdit && c.state != Blocked && c.socket.Some? &&
                 c.socket.value < |c.wires| && c.wires[c.socket.value].phase == Open && c.sent == {} && c.pending != []) then c
            else
              var n := c.socket.value;
              if c.wires[n].congested then c.(wires := c.wires[n := c.wires[n].(phase := Closing)])
              else c.(wires := c.wires[n := c.wires[n].(up := c.wires[n].up + [c.pending[0]])], sent := {c.pending[0].id})
  {
    hide Transport;
    FlushKeeps(c);
  }

  /** Hanging up closes the held socket and no other. */
  lemma HangUpWires(s: System, e: Event, d: Client)
    requires Enabled(s, e) && HangsUp(s, e, d) && !Sends(s, e, d) && !Answers(s, e, Granted)
    requires !e.SocketOpened? && !e.SocketClosed? && !e.SocketCongested? && !e.ServerTook?
    requires |d.wires| == |s.client.wires| && forall n: nat :: n < |d.wires| ==>
               d.wires[n] == CloseWire(s.client.wires, s.client.socket)[n].(down := DownAfter(s, e, n))
    requires d.sent == if Starts(s, e) then {} else InFlight(s, e)
    ensures WiresLaw(s, e, d)
  {
    hide HangsUp, Sends, Starts, InFlight;
    assert d.wires[|s.client.wires|..] == [];
  }

  /** Nothing but downward bytes changes. */
  lemma SameWires(s: System, e: Event, d: Client)
    requires Enabled(s, e) && !HangsUp(s, e, d) && !Sends(s, e, d) && !Answers(s, e, Granted) && !Starts(s, e)
    requires !e.SocketOpened? && !e.SocketClosed? && !e.SocketCongested? && !e.ServerTook?
    requires |d.wires| == |s.client.wires| && forall n: nat :: n < |d.wires| ==>
               d.wires[n] == s.client.wires[n].(down := DownAfter(s, e, n))
    requires d.sent == InFlight(s, e)
    ensures WiresLaw(s, e, d)
  {
    hide HangsUp, Sends, Starts, InFlight;
    assert d.wires[|s.client.wires|..] == [];
  }

  lemma NothingDown(s: System, e: Event)
    requires Enabled(s, e) && !e.Delivered? && !e.ServerTook? && !e.ServerSynced? && !e.ServerBroke?
    ensures forall n: nat :: n < |s.client.wires| ==> DownAfter(s, e, n) == s.client.wires[n].down
  {
  }

  lemma TypedWires(s: System, e: Event)
    requires Transport(s.client) && Enabled(s, e) && e.Typed?
    ensures WiresLaw(s, e, Step(s, e).client)
  {
    hide Changed, Flush, Block, Transport, WireLaw, WiresLaw, Disarm, CloseWire, DownAfter;
    NothingDown(s, e);
    ChangedExactly(s.client, e.edit);
    var c := s.client;
    var d := c.(pending := c.pending + [e.edit], document := c.document + {e.edit.id});
    if !c.disposed && e.edit.size <= MAX_UPDATE_BYTES && c.identity {
      ChangedFlushes(c, e.edit);
      FlushExactly(d);
      FlushedWires(s, e, d);
    } else if c.disposed {
      SameWires(s, e, Step(s, e).client);
    } else {
      CloseKeepsCount(c.wires, c.socket);
      BlockExactly(d);
      BlockExactly(d.(oversized := true));
      HangUpWires(s, e, Step(s, e).client);
    }
  }

  lemma CloseKeepsCount(wires: seq<Wire>, socket: Option<nat>)
    ensures |CloseWire(wires, socket)| == |wires|
    ensures forall n: nat :: n < |wires| ==>
              CloseWire(wires, socket)[n].down == wires[n].down
  {
  }

  /** The flush of `d`, which has the wires of before but for downward bytes. */
  lemma FlushedWires(s: System, e: Event, d: Client)
    requires Enabled(s, e) && Transport(d) && (e.Typed? || e.Delivered?)
    requires (Understands(s, e) || (e.Typed? && !s.client.disposed && s.client.identity && e.edit.size <= 64 * 1024))
    requires d.socket == s.client.socket && d.authorized == s.client.authorized && d.sent == InFlight(s, e) &&
             !d.disposed && d.identity
    requires |d.wires| == |s.client.wires| && forall n: nat :: n < |d.wires| ==>
               d.wires[n] == s.client.wires[n].(down := DownAfter(s, e, n))
    ensures WiresLaw(s, e, Flush(d))
  {
    hide Flush, Transport, InFlight, Understands, DownAfter;
    FlushExactly(d);
    assert !Blocks(s, e) by { UnderstoodIsNoBlock(s, e); }
    assert Flush(d).wires[|s.client.wires|..] == [];
  }

  lemma UnderstoodIsNoBlock(s: System, e: Event)
    requires Enabled(s, e)
    requires Understands(s, e) || (e.Typed? && !s.client.disposed && s.client.identity && e.edit.size <= 64 * 1024)
    ensures !Blocks(s, e)
  {
  }

  lemma UnderstoodWires(s: System, e: Event)
    requires Transport(s.client) && Enabled(s, e) && Understands(s, e)
    ensures WiresLaw(s, e, Step(s, e).client)
  {
    hide Flush, Transport, Digest, Block, WireLaw, WiresLaw;
    var w := s.client.wires[e.n];
    var d := SetWire(s, e.n, w.(down := w.down[1..])).client;
    WireKeeps(s.client, e.n, d.wires[e.n]);
    DigestKeeps(d, w.down[0]);
    DigestExactly(d, w.down[0]);
    FlushedWires(s, e, Digest(d, w.down[0]));
  }

  lemma UnreadWires(s: System, e: Event)
    requires Enabled(s, e) && e.Delivered? && !Understands(s, e)
    ensures WiresLaw(s, e, Step(s, e).client)
  {
    hide Flush, Digest, WiresLaw, CloseWire, Disarm;
    var w := s.client.wires[e.n];
    var d := SetWire(s, e.n, w.(down := w.down[1..])).client;
    if Hears(s, e) {
      CloseKeepsCount(d.wires, d.socket);
      ClosePopped(s.client.wires, e.n);
      HangUpWires(s, e, Step(s, e).client);
    } else {
      SameWires(s, e, Step(s, e).client);
    }
  }

  /** Closing does not depend on what has been read. */
  lemma ClosePopped(wires: seq<Wire>, n: nat)
    requires n < |wires| && wires[n].down != []
    ensures var popped := wires[n := wires[n].(down := wires[n].down[1..])];
            |CloseWire(wires, Some(n))| == |CloseWire(popped, Some(n))| == |wires| &&
            forall m: nat :: m < |wires| ==>
              CloseWire(popped, Some(n))[m] == CloseWire(wires, Some(n))[m].(down := CloseWire(popped, Some(n))[m].down)
  {
  }

  lemma EndedWires(s: System, e: Event)
    requires Enabled(s, e) && (e.BlockCalled? || e.DestroyCalled? || e.SocketFailed?)
    ensures WiresLaw(s, e, Step(s, e).client)
  {
    hide WiresLaw, CloseWire, Disarm, DownAfter;
    NothingDown(s, e);
    CloseKeepsCount(s.client.wires, s.client.socket);
    if HangsUp(s, e, Step(s, e).client) { HangUpWires(s, e, Step(s, e).client); } else { SameWires(s, e, Step(s, e).client); }
  }

  lemma StartedWires(s: System, e: Event)
    requires Enabled(s, e) && (e.ConnectCalled? || e.TimerFired? || e.AuthorizationSet?)
    ensures WiresLaw(s, e, Step(s, e).client)
  {
    hide WiresLaw, CloseWire, Disarm, DownAfter;
    NothingDown(s, e);
    CloseKeepsCount(s.client.wires, s.client.socket);
    if Starts(s, e) || Suspends(s, e) { HangUpWires(s, e, Step(s, e).client); } else { SameWires(s, e, Step(s, e).client); }
  }

  lemma AnsweredWires(s: System, e: Event)
    requires Enabled(s, e) && e.SessionAnswered?
    ensures WiresLaw(s, e, Step(s, e).client)
  {
    hide CloseWire, Disarm, WiresLaw;
    var c, d := s.client, Step(s, e).client;
    CloseKeepsCount(c.wires, c.socket);
    if Answers(s, e, Granted) {
      GrantedWires(s, e);
    } else if HangsUp(s, e, d) {
      HangUpWires(s, e, d);
    } else {
      SameWires(s, e, d);
    }
  }

  lemma GrantedWires(s: System, e: Event)
    requires Enabled(s, e) && Answers(s, e, Granted)
    ensures WiresLaw(s, e, Step(s, e).client)
  {
    assert Step(s, e).client.wires[|s.client.wires|..] == [Wire(s.client.epoch, Opening, false, [], [])];
  }

  lemma ClosedWires(s: System, e: Event)
    requires Transport(s.client) && Enabled(s, e) && e.SocketClosed?
    ensures WiresLaw(s, e, Step(s, e).client)
  {
    hide Disarm, OldestInFlight, OneAttempt, Fenced;
    assert Step(s, e).client.wires == s.client.wires[e.n := s.client.wires[e.n].(phase := Dead)];
  }

  lemma OneWire(s: System, e: Event, n: nat, w: Wire)
    requires Enabled(s, e) && n < |s.client.wires|
    requires e == SocketOpened(n) || (e.SocketCongested? && e.n == n) || (e.ServerTook? && e.n == n)
    requires var v := s.client.wires[n];
             w == v.(phase := if e.SocketOpened? then Open else v.phase,
                     congested := if e.SocketCongested? then e.congested else v.congested,
                     up := if e.ServerTook? then v.up[1..] else v.up, down := DownAfter(s, e, n))
    ensures WiresLaw(s, e, s.client.(wires := s.client.wires[n := w]))
  {
    assert s.client.wires[n := w][|s.client.wires|..] == [];
  }

  lemma SocketWires(s: System, e: Event)
    requires Enabled(s, e) && (e.SocketOpened? || e.SocketCongested?)
    ensures WiresLaw(s, e, Step(s, e).client)
  {
    hide WiresLaw;
    OneWire(s, e, e.n, Step(s, e).client.wires[e.n]);
  }

  lemma TakenUp(s: System, n: nat, verdict: Verdict, canEdit: bool)
    requires n < |s.client.wires| && s.client.wires[n].up != []
    ensures n < |Take(s, n, verdict, canEdit).client.wires|
    ensures var w := s.client.wires[n];
            var v := Take(s, n, verdict, canEdit).client.wires[n];
            v == w.(up := w.up[1..], down := DownAfter(s, ServerTook(n, verdict, canEdit), n))
  {
  }

  lemma TakenWires(s: System, e: Event)
    requires Enabled(s, e) && e.ServerTook?
    ensures WiresLaw(s, e, Step(s, e).client)
  {
    hide WiresLaw, Take;
    TakeFrame(s, e.n, e.verdict, e.canEdit);
    TakenUp(s, e.n, e.verdict, e.canEdit);
    OneWire(s, e, e.n, Step(s, e).client.wires[e.n]);
  }

  lemma ServerWires(s: System, e: Event)
    requires Enabled(s, e)
    requires e.NoteAccepted? || e.IdentityIs? || e.ServerSynced? || e.ServerBroke? || e.ServerJoined?
    ensures WiresLaw(s, e, Step(s, e).client)
  {
    hide WiresLaw;
    SameWires(s, e, Step(s, e).client);
  }

  lemma StepWires(s: System, e: Event)
    requires Transport(s.client) && Enabled(s, e)
    ensures WiresLaw(s, e, Step(s, e).client)
  {
    hide Step, Enabled, Transport, WiresLaw, Understands;
    if e.Typed? {
      TypedWires(s, e);
    } else if Understands(s, e) {
      UnderstoodWires(s, e);
    } else if e.Delivered? {
      UnreadWires(s, e);
    } else if e.SessionAnswered? {
      AnsweredWires(s, e);
    } else if e.SocketClosed? {
      ClosedWires(s, e);
    } else if e.SocketOpened? || e.SocketCongested? {
      SocketWires(s, e);
    } else if e.ServerTook? {
      TakenWires(s, e);
    } else if e.NoteAccepted? || e.IdentityIs? || e.ServerSynced? || e.ServerBroke? || e.ServerJoined? {
      ServerWires(s, e);
    } else if e.BlockCalled? || e.DestroyCalled? || e.SocketFailed? {
      EndedWires(s, e);
    } else {
      StartedWires(s, e);
    }
  }

  /**
    The oldest edit goes out exactly when a local edit or a message comes in and nothing is in flight on an open,
    uncongested socket of a note that may be edited; the client hangs up exactly when it gives up the epoch, the socket
    fails or its buffer is full.
  */
  lemma SendsExactly(ss: seq<System>, es: seq<Event>, k: nat)
    requires Behaviour(ss, es) && k < |es|
    ensures Enabled(ss[k], es[k]) && WiresLaw(ss[k], es[k], ss[k + 1].client)
  {
    hide Step, Enabled, Transport, Durable, WiresLaw;
    AlwaysSound(ss, es, k);
    assert Follows(ss, es, k);
    StepWires(ss[k], es[k]);
  }

  // ----- the server

  /** The server commits an update it has not applied before. */
  predicate Commits(s: System, e: Event)
    requires Enabled(s, e)
  {
    e.ServerTook? && !e.verdict.Refused? && s.client.wires[e.n].up[0].id !in s.applied
  }

  /** History and server state grow by one edit, by one commit, or by what others join. */
  ghost predicate ServerLaw(s: System, e: Event, t: System)
    requires Enabled(s, e)
  {
    t.edits == s.edits + (if Queues(s, e) then [e.edit] else []) &&
    t.applied == s.applied + (if Commits(s, e) then [s.client.wires[e.n].up[0].id] else []) &&
    t.document == s.document + (if Commits(s, e) then {s.client.wires[e.n].up[0].id} else {}) +
                  (if e.ServerJoined? then e.updates else {}) &&
    t.revision == s.revision + if Commits(s, e) || e.ServerJoined? then 1 else 0
  }

  lemma StepCommits(s: System, e: Event)
    requires Enabled(s, e)
    ensures ServerLaw(s, e, Step(s, e))
  {
    hide Receive, CloseWire, Changed, Connect, SetAuthorization, Destroy, AnswerSession, Closed, Block, Accept;
  }

  /** An update is applied when it is first committed, whatever becomes of the answer, and never again. */
  lemma CommitsExactly(ss: seq<System>, es: seq<Event>, k: nat)
    requires Behaviour(ss, es) && k < |es|
    ensures Enabled(ss[k], es[k]) && ServerLaw(ss[k], es[k], ss[k + 1])
  {
    hide Step, Enabled, ServerLaw;
    assert Follows(ss, es, k);
    StepCommits(ss[k], es[k]);
  }
}
