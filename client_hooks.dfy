/**
 * The two browser hooks as objects whose fields are the hook's state and refs
 * (apps/frontend/lib/useWebSocketSimple.ts and apps/frontend/lib/useWebSocket.ts).
 * The socket's callbacks and `sendPrompt` are methods; the socket is
 * represented by its ready state, and `sent` holds the frames written to it.
 */
module ClientHooks {
  import opened Wrappers
  import opened ClientView
  import Worker

  datatype SocketState = Connecting | Open | Closing | Closed

  const SimpleConnectionError: string := "WebSocket connection error"
  const GuardedConnectionError: string :=
    "WebSocket connection error - make sure the worker server is running on port 8080"
  const CreateFailedError: string := "Failed to connect to server"
  const MaxConnectAttempts: nat := 1

  /** The frame `sendPrompt` writes. */
  function PromptFrame(prompt: string, projectId: string): Worker.Incoming {
    Worker.Decoded(Worker.PromptType, prompt, projectId)
  }

  /** The view after `sendPrompt`: the sending state on an open socket, else only the error. */
  function AfterSend(s: ViewState, open: bool): (r: ViewState)
    ensures open ==> r == Sending(s)
    ensures !open ==> r == s.(error := Some(NotConnectedError))
  {
    if open then Sending(s) else s.(error := Some(NotConnectedError))
  }

  /** `close()`: a connecting or open socket starts closing; otherwise nothing happens. */
  function CloseRequested(st: SocketState): SocketState {
    if st == Connecting || st == Open then Closing else st
  }

  predicate Active(socket: Option<SocketState>) {
    socket.Some? && (socket.value == Connecting || socket.value == Open)
  }

  /** The hook that opens one socket when mounted and never guards further. */
  class SimpleHook {
    var view: ViewState
    var socket: SocketState
    var sent: seq<Worker.Incoming>

    /** Mounting creates the socket. */
    constructor ()
      ensures view == InitialView && socket == Connecting && sent == []
    {
      view := InitialView;
      socket := Connecting;
      sent := [];
    }

    method OnOpen()
      modifies this
      ensures socket == Open && view == Connected(old(view)) && sent == old(sent)
    {
      socket := Open;
      view := Connected(view);
    }

    method OnMessage(f: Frame)
      modifies this
      ensures view == Apply(old(view), f) && socket == old(socket) && sent == old(sent)
    {
      view := Apply(view, f);
    }

    method OnClose()
      modifies this
      ensures socket == Closed && view == Disconnected(old(view), None) && sent == old(sent)
    {
      socket := Closed;
      view := Disconnected(view, None);
    }

    method OnError()
      modifies this
      ensures view == Disconnected(old(view), Some(SimpleConnectionError))
      ensures socket == old(socket) && sent == old(sent)
    {
      view := Disconnected(view, Some(SimpleConnectionError));
    }

    /** Sends a prompt frame only on an open socket; otherwise only the error changes. */
    method SendPrompt(prompt: string, projectId: string)
      modifies this
      ensures view == AfterSend(old(view), old(socket) == Open)
      ensures sent == old(sent) + (if old(socket) == Open then [PromptFrame(prompt, projectId)] else [])
      ensures socket == old(socket)
    {
      if socket == Open {
        view := Sending(view);
        sent := sent + [PromptFrame(prompt, projectId)];
      } else {
        view := view.(error := Some(NotConnectedError));
      }
    }

    /** Unmounting closes the socket only when it is open. */
    method Cleanup()
      modifies this
      ensures socket == (if old(socket) == Open then Closing else old(socket))
      ensures view == old(view) && sent == old(sent)
    {
      if socket == Open {
        socket := Closing;
      }
    }
  }

  /**
   * The hook with a connection guard: the connecting flag and the socket are
   * refs that outlive a mount; the mounted flag and the attempt counter belong
   * to the current mount.
   */
  class GuardedHook {
    var view: ViewState
    var isConnecting: bool
    var socket: Option<SocketState>
    var sent: seq<Worker.Incoming>
    var mounted: bool
    var connectAttempts: nat
    ghost var socketsThisMount: nat

    /** At most one attempt, and so at most one socket, per mount. */
    ghost predicate Valid()
      reads this
    {
      socketsThisMount <= connectAttempts <= MaxConnectAttempts
    }

    predicate ConnectBlocked()
      reads this
    {
      !mounted || isConnecting || connectAttempts >= MaxConnectAttempts || Active(socket)
    }

    constructor ()
      ensures Valid()
      ensures view == InitialView && !isConnecting && socket.None? && sent == []
      ensures !mounted && connectAttempts == 0
    {
      view := InitialView;
      isConnecting := false;
      socket := None;
      sent := [];
      mounted := false;
      connectAttempts := 0;
      socketsThisMount := 0;
    }

    /**
     * One connection attempt: nothing happens when unmounted, already
     * connecting, out of attempts, or when the socket is connecting or open.
     * Otherwise the attempt is counted and a socket is created, or the
     * creation failure is reported.
     */
    method Connect(createFails: bool)
      requires Valid()
      modifies this
      ensures Valid()
      ensures mounted == old(mounted) && sent == old(sent)
      ensures old(ConnectBlocked()) ==>
        && view == old(view) && isConnecting == old(isConnecting) && socket == old(socket)
        && connectAttempts == old(connectAttempts) && socketsThisMount == old(socketsThisMount)
      ensures !old(ConnectBlocked()) ==> connectAttempts == old(connectAttempts) + 1
      ensures !old(ConnectBlocked()) && createFails ==>
        && !isConnecting && socket == old(socket) && socketsThisMount == old(socketsThisMount)
        && view == old(view).(error := Some(CreateFailedError))
      ensures !old(ConnectBlocked()) && !createFails ==>
        && isConnecting && socket == Some(Connecting) && socketsThisMount == old(socketsThisMount) + 1
        && view == old(view)
    {
      if !mounted || isConnecting || connectAttempts >= MaxConnectAttempts {
        return;
      }
      if socket.Some? && (socket.value == Connecting || socket.value == Open) {
        return;
      }
      isConnecting := true;
      connectAttempts := connectAttempts + 1;
      if createFails {
        isConnecting := false;
        view := view.(error := Some(CreateFailedError));
      } else {
        socket := Some(Connecting);
        socketsThisMount := socketsThisMount + 1;
      }
    }

    /** Mounting starts a fresh attempt counter and tries to connect once. */
    method Mount(createFails: bool)
      modifies this
      ensures Valid() && mounted && sent == old(sent)
      ensures (old(isConnecting) || Active(old(socket))) ==>
        && connectAttempts == 0 && isConnecting == old(isConnecting)
        && socket == old(socket) && view == old(view)
      ensures !(old(isConnecting) || Active(old(socket))) ==> connectAttempts == 1
      ensures !(old(isConnecting) || Active(old(socket))) && createFails ==>
        && !isConnecting && socket == old(socket) && view == old(view).(error := Some(CreateFailedError))
      ensures !(old(isConnecting) || Active(old(socket))) && !createFails ==>
        && isConnecting && socket == Some(Connecting) && view == old(view)
    {
      mounted := true;
      connectAttempts := 0;
      socketsThisMount := 0;
      Connect(createFails);
    }

    method OnOpen()
      requires Valid()
      modifies this
      ensures Valid()
      ensures !isConnecting && socket == Some(Open) && view == Connected(old(view))
      ensures connectAttempts == old(connectAttempts) && mounted == old(mounted) && sent == old(sent)
    {
      isConnecting := false;
      socket := Some(Open);
      view := Connected(view);
    }

    method OnMessage(f: Frame)
      requires Valid()
      modifies this
      ensures Valid()
      ensures view == Apply(old(view), f)
      ensures isConnecting == old(isConnecting) && socket == old(socket) && sent == old(sent)
      ensures connectAttempts == old(connectAttempts) && mounted == old(mounted)
    {
      view := Apply(view, f);
    }

    /** A closed socket is never replaced: the attempt counter and the sockets created stay as they are. */
    method OnClose()
      requires Valid()
      modifies this
      ensures Valid()
      ensures !isConnecting && socket == Some(Closed) && view == Disconnected(old(view), None)
      ensures connectAttempts == old(connectAttempts) && socketsThisMount == old(socketsThisMount)
      ensures mounted == old(mounted) && sent == old(sent)
    {
      isConnecting := false;
      socket := Some(Closed);
      view := Disconnected(view, None);
    }

    method OnError()
      requires Valid()
      modifies this
      ensures Valid()
      ensures !isConnecting && view == Disconnected(old(view), Some(GuardedConnectionError))
      ensures socket == old(socket) && connectAttempts == old(connectAttempts)
      ensures socketsThisMount == old(socketsThisMount) && mounted == old(mounted) && sent == old(sent)
    {
      isConnecting := false;
      view := Disconnected(view, Some(GuardedConnectionError));
    }

    method SendPrompt(prompt: string, projectId: string)
      requires Valid()
      modifies this
      ensures Valid()
      ensures view == AfterSend(old(view), old(socket) == Some(Open))
      ensures sent == old(sent) + (if old(socket) == Some(Open) then [PromptFrame(prompt, projectId)] else [])
      ensures socket == old(socket) && isConnecting == old(isConnecting)
      ensures connectAttempts == old(connectAttempts) && mounted == old(mounted)
    {
      if socket == Some(Open) {
        view := Sending(view);
        sent := sent + [PromptFrame(prompt, projectId)];
      } else {
        view := view.(error := Some(NotConnectedError));
      }
    }

    /** Unmounting ends the mount and closes the socket, if there is one. */
    method Unmount()
      requires Valid()
      modifies this
      ensures Valid()
      ensures !mounted && socket == (if old(socket).Some? then Some(CloseRequested(old(socket).value)) else None)
      ensures view == old(view) && isConnecting == old(isConnecting) && sent == old(sent)
      ensures connectAttempts == old(connectAttempts)
    {
      mounted := false;
      if socket.Some? {
        socket := Some(CloseRequested(socket.value));
      }
    }
  }

  /**
   * A remount while the first socket is still connecting (the mount, unmount,
   * mount sequence of a development build) creates no second socket: the
   * connecting flag blocks the new mount's only attempt, and once the first
   * socket has closed the hook stays disconnected.
   */
  method RemountWhileConnecting() returns (socket: Option<SocketState>, connected: bool, attempts: nat)
    ensures socket == Some(Closed) && !connected && attempts == 0
  {
    var hook := new GuardedHook();
    hook.Mount(false);
    hook.Unmount();
    hook.Mount(false);
    hook.OnClose();
    socket, connected, attempts := hook.socket, hook.view.isConnected, hook.connectAttempts;
  }
}
