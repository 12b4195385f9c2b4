/** The collaboration object of one open note, its fields updated by calls and socket events. */
module LiveNoteClient {
  import opened Basics
  import opened LiveNote

  class LiveNoteCollaboration {
    var identity: bool
    var pending: seq<Edit>
    var sent: set<nat>
    var socket: Option<nat>
    var sessions: set<nat>
    var timer: Option<nat>
    var armed: set<nat>
    var handles: nat
    var epoch: nat
    var disposed: bool
    var synced: bool
    var oversized: bool
    var authorizationReady: bool
    var state: Connection
    var revision: nat
    var canEdit: bool
    var document: set<nat>
    var wires: seq<Wire>

    function Abs(): Client
      reads this
    {
      Client(identity, pending, sent, socket, sessions, timer, armed, handles, epoch, disposed, synced, oversized,
             authorizationReady, state, revision, canEdit, document, wires)
    }

    constructor (note: Note)
      ensures Abs() == Client(true, [], {}, None, {}, None, {}, 0, 0, false, false, false, true, Connecting,
                              note.revision, note.canEdit, note.document, [])
    {
      identity, pending, sent, socket, sessions := true, [], {}, None, {};
      timer, armed, handles, epoch := None, {}, 0, 0;
      disposed, synced, oversized, authorizationReady, state := false, false, false, true, Connecting;
      revision, canEdit, document, wires := note.revision, note.canEdit, note.document, [];
    }

    method CloseSocket()
      modifies this`wires
      ensures wires == CloseWire(old(wires), socket)
    {
      if socket.Some? && socket.value < |wires| && wires[socket.value].phase != Dead {
        wires := wires[socket.value := wires[socket.value].(phase := Closing)];
      }
    }

    method ClearTimer()
      modifies this`armed
      ensures armed == if timer.Some? then old(armed) - {timer.value} else old(armed)
    {
      if timer.Some? {
        armed := armed - {timer.value};
      }
    }

    /** A local edit, or one made while the account is no longer the note's. */
    method OnChanged(edit: Edit)
      modifies this
      ensures Abs() == Changed(old(Abs()), edit)
    {
      hide Flush, Block;
      if disposed {
        return;
      }
      pending := pending + [edit];
      document := document + {edit.id};
      if edit.size > MAX_UPDATE_BYTES {
        oversized := true;
        BlockTransport();
      } else if disposed || !identity {
        BlockTransport();
      } else {
        FlushPending();
      }
    }

    method AcceptNote(note: Note)
      modifies this`document, this`revision, this`canEdit
      ensures Abs() == Accept(old(Abs()), note)
    {
      if disposed || !identity || !note.ours {
        return;
      }
      document := document + note.document;
      if note.revision >= revision {
        revision, canEdit := note.revision, note.canEdit;
      }
    }

    /** `connect` up to its await: fence everything older and ask for a session. */
    method ConnectTransport()
      modifies this
      ensures Abs() == Connect(old(Abs()))
    {
      hide Fence, Ask;
      if disposed || !identity || !authorizationReady || state == Blocked {
        return;
      }
      FenceTransport();
      AskForSession();
    }

    method AskForSession()
      modifies this`sent, this`synced, this`state, this`sessions
      ensures Abs() == Ask(old(Abs()))
    {
      sent, synced, state, sessions := {}, false, Connecting, sessions + {epoch};
    }

    /** `connect` after its await, or its catch block. */
    method ResumeSession(asked: nat, outcome: SessionOutcome)
      requires asked in sessions
      modifies this
      ensures Abs() == AnswerSession(old(Abs()), asked, outcome)
    {
      hide Block, Reconnect;
      sessions := sessions - {asked};
      if disposed || !identity || asked != epoch {
        return;
      }
      match outcome {
        case Granted =>
          socket := Some(|wires|);
          wires := wires + [Wire(asked, Opening, false, [], [])];
        case Denied => BlockTransport();
        case Unreachable => ReconnectLater();
      }
    }

    method OnMessage(n: nat, message: Message)
      modifies this
      ensures Abs() == Receive(old(Abs()), n, message)
    {
      hide Flush, Block, Digest;
      if disposed || !identity || socket != Some(n) {
        return;
      }
      if message.Broken? || !message.note.ours {
        BlockTransport();
        return;
      }
      RetireAnswered(message);
      FlushPending();
    }

    /** The lines of the message handler between its checks and its flush. */
    method RetireAnswered(message: Message)
      requires !message.Broken?
      modifies this
      ensures Abs() == Digest(old(Abs()), message)
    {
      hide Accept, Retire;
      AcceptNote(message.note);
      if message.Ack? {
        RetireRequest(message.id);
      }
      synced, state := true, Connected;
    }

    method RetireRequest(id: nat)
      modifies this`pending, this`sent
      ensures Abs() == Retire(old(Abs()), id)
    {
      pending, sent := Drop(pending, id), sent - {id};
    }

    method OnClose(n: nat, refused: bool)
      modifies this
      ensures Abs() == Closed(old(Abs()), n, refused)
    {
      if socket != Some(n) || disposed {
        return;
      }
      socket := None;
      synced := false;
      if refused {
        BlockTransport();
      } else {
        ReconnectLater();
      }
    }

    /** The queue walk of `flush`: skip what may not go out, send one update, stop. */
    method FlushPending()
      modifies this`wires, this`sent
      ensures Abs() == Flush(old(Abs()))
    {
      if disposed || !identity || !authorizationReady || !synced || !canEdit || state == Blocked
         || socket.None? || socket.value >= |wires| || wires[socket.value].phase != Open || sent != {}
      {
        return;
      }
      for i := 0 to |pending|
        invariant Abs() == old(Abs())
        invariant NextToSend(pending, sent) == NextToSend(pending[i..], sent)
      {
        if pending[i].size > MAX_UPDATE_BYTES || pending[i].id in sent {
          continue;
        }
        var w := wires[socket.value];
        if w.congested {
          CloseSocket();
          return;
        }
        wires := wires[socket.value := w.(up := w.up + [pending[i]])];
        sent := sent + {pending[i].id};
        return;
      }
    }

    method ReconnectLater()
      modifies this`state, this`timer, this`armed, this`handles
      ensures Abs() == Reconnect(old(Abs()))
    {
      if disposed || !identity || !authorizationReady || state == Blocked {
        return;
      }
      state := Offline;
      timer := Some(handles);
      armed := armed + {handles};
      handles := handles + 1;
    }

    method SetAuthorizationReady(ready: bool)
      modifies this
      ensures Abs() == SetAuthorization(old(Abs()), ready)
    {
      hide Connect, Suspend;
      if authorizationReady == ready || state == Blocked || disposed || !identity {
        return;
      }
      if ready {
        authorizationReady := true;
        ConnectTransport();
      } else {
        SuspendTransport();
      }
    }

    /** What is left of the fence when authorisation goes. */
    method SuspendTransport()
      modifies this
      ensures Abs() == Suspend(old(Abs()))
    {
      hide Fence;
      authorizationReady := false;
      FenceTransport();
      synced := false;
      state := Offline;
    }

    /** The lines every way out of an epoch shares. */
    method LeaveItsEpoch()
      modifies this`epoch, this`armed, this`wires
      ensures Abs() == LeaveEpoch(old(Abs()))
    {
      hide CloseWire;
      epoch := epoch + 1;
      ClearTimer();
      CloseSocket();
    }

    /** The lines `setAuthorizationReady` and `block` share. */
    method FenceTransport()
      modifies this
      ensures Abs() == Fence(old(Abs()))
    {
      hide LeaveEpoch;
      LeaveItsEpoch();
      timer := None;
      socket := None;
    }

    method BlockTransport()
      modifies this
      ensures Abs() == Block(old(Abs()))
    {
      hide Fence;
      FenceTransport();
      state := Blocked;
    }

    method DestroyTransport()
      modifies this
      ensures Abs() == Destroy(old(Abs()))
    {
      hide LeaveEpoch;
      disposed := true;
      LeaveItsEpoch();
    }
  }
}
