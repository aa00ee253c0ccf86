/**
 * The server's signalling handler (`sdp_handler`) and the peer-connection state observer
 * it registers.
 *
 * Decoding the offer, creating the peer connection and the track, setting the remote
 * and local descriptions and ICE gathering are abstract: the handler receives the fresh
 * handles it would create and the local description it would obtain (`None` when
 * `local_description()` yields nothing). Each handler run is modelled as one atomic step.
 */
module ServerRoute {
  import opened Common
  import opened ServerState

  /** `SdpData`: the request and reply body, an encoded description and an optional password. */
  datatype SdpData = SdpData(sdp: string, password: Option<string>)

  /** Why an offer is rejected, one case per `ErrorMessage` the handler returns. */
  datatype Rejection = InvalidPassword | ConnectionBusy | NoLocalDescription

  /** `RTCPeerConnectionState` as reported to the observer. */
  datatype PeerConnectionState =
    | Unspecified | New | PeerConnecting | PeerConnected | PeerDisconnected | Failed | Closed

  /** The states on which the observer releases the session. */
  predicate IsTerminal(ps: PeerConnectionState) {
    ps == PeerDisconnected || ps == Closed || ps == Failed
  }

  /** The password check: passes when none is configured, else the offered one (absent read as "") must match. */
  predicate PasswordAccepted(configured: Option<string>, offered: Option<string>) {
    match configured
    case None => true
    case Some(password) => password == offered.GetOr("")
  }

  /**
   * Without a configured password every offer passes; a configured empty password accepts
   * an offer that carries no password and rejects every non-empty one.
   */
  lemma EmptyPasswordAcceptsMissing()
    ensures forall o: Option<string> :: PasswordAccepted(None, o)
    ensures PasswordAccepted(Some(""), None)
    ensures forall p: string :: p != "" ==> !PasswordAccepted(Some(""), Some(p))
  {
  }

  datatype OfferResult = OfferResult(next: Session, reply: Result<SdpData, Rejection>)

  /** What one run of `sdp_handler` does to the session and what it answers. */
  function OfferOutcome(
    s: Session, configured: Option<string>, offer: SdpData,
    pc: PeerConnectionId, track: VideoTrackId, localDescription: Option<string>): (r: OfferResult)
    // the password check comes first, and a wrong password leaves the session as it was
    ensures !PasswordAccepted(configured, offer.password) ==> r == OfferResult(s, Err(InvalidPassword))
    // an active or pending session rejects the offer and is left as it was
    ensures PasswordAccepted(configured, offer.password) && s.connection != Disconnected ==>
              r == OfferResult(s, Err(ConnectionBusy))
    // success exactly when both checks pass and a local description was produced
    ensures r.reply.Ok? <==>
              PasswordAccepted(configured, offer.password) && s.connection == Disconnected &&
              localDescription.Some?
    ensures r.reply.Ok? ==>
              r.reply.value == SdpData(localDescription.value, None) &&
              r.next == Session(Connected, Some(pc), Some(track))
    // without a local description the slot stays taken: Connecting, both handles set
    ensures PasswordAccepted(configured, offer.password) && s.connection == Disconnected &&
            localDescription.None? ==>
              r == OfferResult(Session(Connecting, Some(pc), Some(track)), Err(NoLocalDescription))
    // a rejection for any other reason changes nothing
    ensures r.reply.Err? && r.reply.error != NoLocalDescription ==> r.next == s
    ensures Consistent(s) ==> Consistent(r.next)
  {
    if !PasswordAccepted(configured, offer.password) then
      OfferResult(s, Err(InvalidPassword))
    else if s.connection != Disconnected then
      OfferResult(s, Err(ConnectionBusy))
    else
      match localDescription
      case Some(desc) => OfferResult(Session(Connected, Some(pc), Some(track)), Ok(SdpData(desc, None)))
      case None => OfferResult(Session(Connecting, Some(pc), Some(track)), Err(NoLocalDescription))
  }

  /** What the peer-connection state observer does to the session. */
  function PeerStateOutcome(s: Session, ps: PeerConnectionState): (r: Session)
    ensures IsTerminal(ps) ==> r == Idle
    ensures !IsTerminal(ps) ==> r == s
    ensures Consistent(s) ==> Consistent(r)
  {
    if IsTerminal(ps) then Session(Disconnected, None, None) else s
  }

  /**
   * `sdp_handler`: checks the password, then that no session is active, then installs the
   * new peer connection and track, marks the session `Connecting`, and, once a local
   * description is available, `Connected`.
   */
  method SdpHandler(
    sdpData: SdpData, state: AppState,
    pc: PeerConnectionId, track: VideoTrackId, localDescription: Option<string>)
    returns (reply: Result<SdpData, Rejection>)
    modifies state
    ensures OfferResult(state.Current(), reply) ==
            OfferOutcome(old(state.Current()), state.password, sdpData, pc, track, localDescription)
    ensures old(Consistent(state.Current())) ==> Consistent(state.Current())
  {
    if state.password.Some? {
      if state.password.value != sdpData.password.GetOr("") {
        return Err(InvalidPassword);
      }
    }

    if state.connection != ConnectionState.Disconnected {
      return Err(ConnectionBusy);
    }

    state.peerConnection := Some(pc);
    state.videoTrack := Some(track);
    state.connection := ConnectionState.Connecting;

    if localDescription.Some? {
      var response := SdpData(localDescription.value, None);
      state.connection := ConnectionState.Connected;
      return Ok(response);
    } else {
      return Err(NoLocalDescription);
    }
  }

  /** The `on_peer_connection_state_change` closure: a terminal state releases the session. */
  method OnPeerConnectionStateChange(state: AppState, ps: PeerConnectionState)
    modifies state
    ensures state.Current() == PeerStateOutcome(old(state.Current()), ps)
  {
    if ps == PeerDisconnected || ps == Closed || ps == Failed {
      state.connection := ConnectionState.Disconnected;
      state.peerConnection := None;
      state.videoTrack := None;
    }
  }

  /** One thing that can happen to the session: an offer arrives, or the peer state changes. */
  datatype Event =
    | Offer(data: SdpData, pc: PeerConnectionId, track: VideoTrackId, localDescription: Option<string>)
    | PeerStateChange(peerState: PeerConnectionState)

  predicate IsTerminalEvent(e: Event) {
    e.PeerStateChange? && IsTerminal(e.peerState)
  }

  function Apply(s: Session, configured: Option<string>, e: Event): Session {
    match e
    case Offer(data, pc, track, desc) => OfferOutcome(s, configured, data, pc, track, desc).next
    case PeerStateChange(ps) => PeerStateOutcome(s, ps)
  }

  /** The session after the events `es`, handled one at a time in order. */
  function Replay(s: Session, configured: Option<string>, es: seq<Event>): Session
    decreases |es|
  {
    if es == [] then s else Apply(Replay(s, configured, es[..|es| - 1]), configured, es[|es| - 1])
  }

  /** With atomic handlers, every sequence of events keeps the single-session invariant. */
  lemma {:induction false} ReplayKeepsConsistent(s: Session, configured: Option<string>, es: seq<Event>)
    requires Consistent(s)
    ensures Consistent(Replay(s, configured, es))
    decreases |es|
  {
    if es != [] {
      ReplayKeepsConsistent(s, configured, es[..|es| - 1]);
    }
  }

  /** A session that is not `Disconnected` stays so until a terminal peer state is reported. */
  lemma {:induction false} BusyUntilTerminal(s: Session, configured: Option<string>, es: seq<Event>)
    requires s.connection != Disconnected
    requires forall i :: 0 <= i < |es| ==> !IsTerminalEvent(es[i])
    ensures Replay(s, configured, es).connection != Disconnected
    decreases |es|
  {
    if es != [] {
      BusyUntilTerminal(s, configured, es[..|es| - 1]);
      assert !IsTerminalEvent(es[|es| - 1]);
    }
  }

  /**
   * Single viewer: once an offer has passed both checks, every later offer is rejected,
   * and leaves the session alone, until the peer reports a terminal state.
   */
  lemma SecondOfferRejected(
    s: Session, configured: Option<string>, first: SdpData,
    pc: PeerConnectionId, track: VideoTrackId, desc: Option<string>,
    between: seq<Event>, second: Event)
    requires s.connection == Disconnected && PasswordAccepted(configured, first.password)
    requires forall i :: 0 <= i < |between| ==> !IsTerminalEvent(between[i])
    requires second.Offer?
    ensures var before := Replay(Apply(s, configured, Offer(first, pc, track, desc)), configured, between);
            var r := OfferOutcome(before, configured, second.data, second.pc, second.track, second.localDescription);
            r.reply.Err? && r.reply.error != NoLocalDescription && r.next == before
  {
    BusyUntilTerminal(Apply(s, configured, Offer(first, pc, track, desc)), configured, between);
  }

  /**
   * After a terminal peer state, the next offer with the right password passes the busy
   * check, and succeeds when a local description is produced.
   */
  lemma ReconnectAfterTerminal(
    s: Session, configured: Option<string>, ps: PeerConnectionState,
    offer: SdpData, pc: PeerConnectionId, track: VideoTrackId, desc: Option<string>)
    requires IsTerminal(ps) && PasswordAccepted(configured, offer.password)
    ensures OfferOutcome(PeerStateOutcome(s, ps), configured, offer, pc, track, desc).reply != Err(ConnectionBusy)
    ensures desc.Some? ==> OfferOutcome(PeerStateOutcome(s, ps), configured, offer, pc, track, desc).reply.Ok?
  {
  }
}
