/**
 * The server's shared state (`AppState`) and its connection state (`ConnectionState`).
 *
 * The peer connection and the outbound video track are held as opaque handles: the
 * model only records whether a slot holds one and which one.
 */
module ServerState {
  import opened Common

  /** `ConnectionState`: exactly three states, compared by equality. */
  datatype ConnectionState = Disconnected | Connecting | Connected

  /** An opaque handle to an `RTCPeerConnection`. */
  type PeerConnectionId = nat

  /** An opaque handle to a `TrackLocalStaticSample`. */
  type VideoTrackId = nat

  /** The three mutex-protected session cells of `AppState`, read together. */
  datatype Session = Session(
    connection: ConnectionState,
    peerConnection: Option<PeerConnectionId>,
    videoTrack: Option<VideoTrackId>)

  /** No session: disconnected, no peer connection, no video track. */
  const Idle: Session := Session(Disconnected, None, None)

  /**
   * The single-session invariant: the state is `Disconnected` exactly when the peer
   * connection slot is empty, exactly when the video track slot is empty.
   */
  predicate Consistent(s: Session) {
    (s.connection == Disconnected <==> s.peerConnection.None?) &&
    (s.peerConnection.None? <==> s.videoTrack.None?)
  }

  /** `AppState`: configuration fixed at start-up, and the session cells the handlers write. */
  class AppState {
    const screenIndex: nat
    const password: Option<string>
    var connection: ConnectionState
    var peerConnection: Option<PeerConnectionId>
    var videoTrack: Option<VideoTrackId>

    /** The session cells as one value. */
    function Current(): Session
      reads this
    {
      Session(connection, peerConnection, videoTrack)
    }

    /** `AppState::new`: keeps the configuration as given and starts with no session. */
    constructor (screenIndex: nat, password: Option<string>)
      ensures this.screenIndex == screenIndex && this.password == password
      ensures Current() == Idle
      ensures Consistent(Current())
    {
      this.screenIndex := screenIndex;
      this.password := password;
      connection := Disconnected;
      peerConnection := None;
      videoTrack := None;
    }
  }

  /**
   * The screen index `run_cli_server` gives `AppState::new`: the prompt's zero-based
   * selection turned into the capture library's one-based monitor index.
   */
  function ScreenIndexOf(selection: nat): (index: nat)
    ensures index >= 1
  {
    selection + 1
  }
}
