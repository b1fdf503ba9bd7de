/** The public rendezvous service: short-lived invites held only for peers with a relay reservation. */
module Rendezvous {
  import opened Bytes
  import opened Wrappers
  import opened Addresses

  const INVITE_TTL_SECS: nat := 300

  type Peer = Text

  datatype Invite = Invite(peer: Peer, addresses: seq<Multiaddr>, expiresAt: nat)

  datatype Service = Service(invites: map<Text, Invite>, reserved: set<Peer>)

  datatype Event =
    | ReservationAccepted(peer: Peer)
    | ReservationEnded(peer: Peer)
    | Register(peer: Peer, code: Text, expiresAt: nat, addresses: seq<Option<Multiaddr>>, now: nat)
    | Resolve(peer: Peer, code: Text, now: nat)
    | OtherRequest(peer: Peer, now: nat)

  datatype Response =
    | NoResponse
    | Registered
    | Resolved(peer: Peer, addresses: seq<Multiaddr>)
    | ReservationNotReady
    | InvalidExpiry
    | CodeCollision
    | InviteInvalid
    | Unsupported

  predicate IsRequest(e: Event) {
    e.Register? || e.Resolve? || e.OtherRequest?
  }

  /** Drops the invites that have run out. */
  function Unexpired(invites: map<Text, Invite>, now: nat): map<Text, Invite> {
    map code | code in invites && invites[code].expiresAt > now :: invites[code]
  }

  function Without(invites: map<Text, Invite>, peer: Peer): map<Text, Invite> {
    map code | code in invites && invites[code].peer != peer :: invites[code]
  }

  ghost function Step(s: Service, e: Event): (Service, Response) {
    match e
    case ReservationAccepted(peer) => (s.(reserved := s.reserved + {peer}), NoResponse)
    case ReservationEnded(peer) => (Service(Without(s.invites, peer), s.reserved - {peer}), NoResponse)
    case Register(peer, code, expiresAt, addresses, now) =>
      var live := Unexpired(s.invites, now);
      var kept := s.(invites := live);
      if peer !in s.reserved then (kept, ReservationNotReady)
      else if expiresAt <= now || expiresAt > now + INVITE_TTL_SECS then (kept, InvalidExpiry)
      else if code in live && live[code].peer != peer then (kept, CodeCollision)
      else (s.(invites := live[code := Invite(peer, SanitizeAll(addresses), expiresAt)]), Registered)
    case Resolve(_, code, now) =>
      var live := Unexpired(s.invites, now);
      (s.(invites := live - {code}),
       if code in live && live[code].peer in s.reserved then Resolved(live[code].peer, live[code].addresses)
       else InviteInvalid)
    case OtherRequest(_, now) => (s.(invites := Unexpired(s.invites, now)), Unsupported)
  }

  class RendezvousService {
    var invites: map<Text, Invite>
    var reserved: set<Peer>

    function View(): Service
      reads this
    {
      Service(invites, reserved)
    }

    constructor ()
      ensures View() == Service(map[], {})
    {
      invites, reserved := map[], {};
    }

    method OnEvent(e: Event) returns (r: Response)
      modifies this
      ensures (View(), r) == Step(old(View()), e)
    {
      if IsRequest(e) {
        invites := Unexpired(invites, e.now);
      }
      match e
      case ReservationAccepted(peer) =>
        reserved := reserved + {peer};
        r := NoResponse;
      case ReservationEnded(peer) =>
        reserved := reserved - {peer};
        invites := Without(invites, peer);
        r := NoResponse;
      case Register(peer, code, expiresAt, addresses, now) =>
        if peer !in reserved {
          r := ReservationNotReady;
        } else if expiresAt <= now || expiresAt > now + INVITE_TTL_SECS {
          r := InvalidExpiry;
        } else if code in invites && invites[code].peer != peer {
          r := CodeCollision;
        } else {
          var direct := Sanitize(addresses);
          invites := invites[code := Invite(peer, direct, expiresAt)];
          r := Registered;
        }
      case Resolve(_, code, now) =>
        r := InviteInvalid;
        if code in invites && invites[code].peer in reserved {
          r := Resolved(invites[code].peer, invites[code].addresses);
        }
        invites := invites - {code};
      case OtherRequest(_, _) =>
        r := Unsupported;
    }
  }

  // ---- Runs ----

  ghost predicate IsRun(states: seq<Service>, events: seq<Event>) {
    && |states| == |events| + 1
    && states[0] == Service(map[], {})
    && forall i :: 0 <= i < |events| ==> states[i + 1] == Step(states[i], events[i]).0
  }

  /** Every live invite's peer holds a reservation. */
  ghost predicate Backed(s: Service) {
    forall code :: code in s.invites ==> s.invites[code].peer in s.reserved
  }

  lemma StepBacked(s: Service, e: Event)
    requires Backed(s)
    ensures Backed(Step(s, e).0)
  {
  }

  /** Whatever the interleaving of reservations and requests, every invite is backed by a reservation. */
  lemma {:induction false} RunBacked(states: seq<Service>, events: seq<Event>, i: nat)
    requires IsRun(states, events) && i < |states|
    ensures Backed(states[i])
  {
    if i > 0 {
      RunBacked(states, events, i - 1);
      StepBacked(states[i - 1], events[i - 1]);
    }
  }

  /** What a registration stores: its addresses cleaned. */
  ghost function InviteOf(e: Event): Invite
    requires e.Register?
  {
    Invite(e.peer, SanitizeAll(e.addresses), e.expiresAt)
  }

  /** An invite for the code is held by someone else, and its time is not up. */
  predicate TakenByOther(s: Service, e: Event)
    requires e.Register?
  {
    e.code in s.invites && s.invites[e.code].expiresAt > e.now && s.invites[e.code].peer != e.peer
  }

  /** The event registers the code: for a peer with a reservation, for up to 300 seconds, if nobody else holds it. */
  predicate Registers(s: Service, e: Event, code: Text) {
    && e.Register? && e.code == code
    && e.peer in s.reserved && e.now < e.expiresAt <= e.now + 300
    && !TakenByOther(s, e)
  }

  /** The answer to a registration: when it succeeds, and which error each failing condition gives, in this order. */
  lemma RegisterAnswer(s: Service, e: Event)
    requires e.Register?
    ensures var r := Step(s, e).1;
      && (r == Registered <==>
          && e.peer in s.reserved && e.now < e.expiresAt <= e.now + 300
          && (e.code in s.invites && s.invites[e.code].expiresAt > e.now ==> s.invites[e.code].peer == e.peer))
      && (r == ReservationNotReady <==> e.peer !in s.reserved)
      && (r == InvalidExpiry <==> e.peer in s.reserved && !(e.now < e.expiresAt <= e.now + 300))
      && (r == CodeCollision <==>
          && e.peer in s.reserved && e.now < e.expiresAt <= e.now + 300
          && e.code in s.invites && s.invites[e.code].expiresAt > e.now && s.invites[e.code].peer != e.peer)
      && (r == Registered || r == ReservationNotReady || r == InvalidExpiry || r == CodeCollision)
  {
  }

  /** Every other answer. */
  lemma OtherAnswers(s: Service, e: Event)
    requires !e.Register?
    ensures var r := Step(s, e).1;
      && (e.Resolve? ==> r == InviteInvalid || r.Resolved?)
      && (e.OtherRequest? ==> r == Unsupported)
      && (e.ReservationAccepted? || e.ReservationEnded? ==> r == NoResponse)
  {
  }

  /**
   * After any run a peer holds a reservation exactly when one of its reservations was accepted and
   * none has ended since.
   */
  lemma {:induction false} ReservedIff(states: seq<Service>, events: seq<Event>, j: nat, peer: Peer)
    requires IsRun(states, events) && j <= |events|
    ensures peer in states[j].reserved <==>
      exists i :: 0 <= i < j && events[i] == ReservationAccepted(peer)
                  && forall k :: i < k < j ==> events[k] != ReservationEnded(peer)
  {
    if j > 0 {
      ReservedIff(states, events, j - 1, peer);
      assert states[j] == Step(states[j - 1], events[j - 1]).0;
    }
  }

  /** Over any run, when a registration succeeds is decided by the events alone. */
  lemma RegisteredIff(states: seq<Service>, events: seq<Event>, j: nat)
    requires IsRun(states, events) && j < |events| && events[j].Register?
    ensures var e := events[j];
      Step(states[j], e).1 == Registered <==>
      && e.now < e.expiresAt <= e.now + 300
      && (exists i :: 0 <= i < j && events[i] == ReservationAccepted(e.peer)
                      && forall k :: i < k < j ==> events[k] != ReservationEnded(e.peer))
      && (forall i :: LiveSince(states, events, i, j, e.code) && events[i].expiresAt > e.now ==>
            events[i].peer == e.peer)
  {
    var e, s := events[j], states[j];
    RegisterAnswer(s, e);
    ReservedIff(states, events, j, e.peer);
    if e.code in s.invites {
      var i := InviteHasOrigin(states, events, j, e.code);
    }
    forall i | LiveSince(states, events, i, j, e.code)
      ensures e.code in s.invites && s.invites[e.code] == InviteOf(events[i])
    {
      LiveIsHeld(states, events, i, j, e.code);
    }
  }

  /** The event ends the invite: someone resolves the code, its owner's reservation ends, or its time is up. */
  predicate Ends(e: Event, code: Text, invite: Invite) {
    || (e.Resolve? && e.code == code)
    || (e.ReservationEnded? && e.peer == invite.peer)
    || (IsRequest(e) && e.now >= invite.expiresAt)
  }

  /** What one event does to one code. */
  lemma CodeLaw(s: Service, e: Event, code: Text)
    ensures var s' := Step(s, e).0;
      && (Registers(s, e, code) ==> code in s'.invites && s'.invites[code] == InviteOf(e))
      && (!Registers(s, e, code) ==>
            && (code in s'.invites <==> code in s.invites && !Ends(e, code, s.invites[code]))
            && (code in s'.invites ==> s'.invites[code] == s.invites[code]))
  {
  }

  /** The registration at step `i` has been neither renewed nor ended before step `j`. */
  ghost predicate LiveSince(states: seq<Service>, events: seq<Event>, i: int, j: int, code: Text)
    requires |states| == |events| + 1 && j <= |events|
  {
    && 0 <= i < j
    && Registers(states[i], events[i], code)
    && forall k :: i < k < j ==>
         !Registers(states[k], events[k], code)
         && !Ends(events[k], code, InviteOf(events[i]))
  }

  lemma {:induction false} InviteHasOrigin(states: seq<Service>, events: seq<Event>, j: nat, code: Text)
    returns (i: int)
    requires IsRun(states, events) && j <= |events| && code in states[j].invites
    ensures LiveSince(states, events, i, j, code)
    ensures states[j].invites[code] == InviteOf(events[i])
    decreases j
  {
    assert states[j] == Step(states[j - 1], events[j - 1]).0;
    CodeLaw(states[j - 1], events[j - 1], code);
    if Registers(states[j - 1], events[j - 1], code) {
      i := j - 1;
    } else {
      i := InviteHasOrigin(states, events, j - 1, code);
    }
  }

  lemma {:induction false} LiveIsHeld(states: seq<Service>, events: seq<Event>, i: int, j: nat, code: Text)
    requires IsRun(states, events) && j <= |events| && LiveSince(states, events, i, j, code)
    ensures code in states[j].invites
    ensures states[j].invites[code] == InviteOf(events[i])
    decreases j
  {
    assert states[j] == Step(states[j - 1], events[j - 1]).0;
    CodeLaw(states[j - 1], events[j - 1], code);
    if i < j - 1 {
      LiveIsHeld(states, events, i, j - 1, code);
    }
  }

  /** A resolve succeeds exactly for a held code whose time is not up: being held implies a reservation. */
  lemma ResolveIffHeld(s: Service, e: Event)
    requires Backed(s) && e.Resolve?
    ensures Step(s, e).1.Resolved? <==> e.code in s.invites && s.invites[e.code].expiresAt > e.now
    ensures Step(s, e).1.Resolved? ==>
      Step(s, e).1 == Resolved(s.invites[e.code].peer, s.invites[e.code].addresses)
  {
  }

  /**
   * Over all interleavings, a resolve succeeds exactly for a code that was registered, has not been
   * resolved since, has not run out, and whose owner kept its reservation; it answers that owner.
   */
  lemma ResolveIffLive(states: seq<Service>, events: seq<Event>, j: nat, peer: Peer,
                       addresses: seq<Multiaddr>)
    requires IsRun(states, events) && j < |events| && events[j].Resolve?
    ensures Step(states[j], events[j]).1 == Resolved(peer, addresses) <==>
      exists i :: LiveSince(states, events, i, j, events[j].code) && events[i].expiresAt > events[j].now
                  && InviteOf(events[i]).peer == peer && InviteOf(events[i]).addresses == addresses
  {
    var s, code := states[j], events[j].code;
    RunBacked(states, events, j);
    ResolveIffHeld(s, events[j]);
    if code in s.invites {
      var i := InviteHasOrigin(states, events, j, code);
    }
    if i :| LiveSince(states, events, i, j, code) && events[i].expiresAt > events[j].now
            && InviteOf(events[i]).peer == peer && InviteOf(events[i]).addresses == addresses {
      LiveIsHeld(states, events, i, j, code);
    }
  }

  /** Every address ever answered is direct: no relay hop, a dialable address and a transport, nothing else. */
  lemma AnswersAreDirect(states: seq<Service>, events: seq<Event>, j: nat, a: Multiaddr)
    requires IsRun(states, events) && j < |events| && events[j].Resolve? && Step(states[j], events[j]).1.Resolved?
    requires a in Step(states[j], events[j]).1.addresses
    ensures Direct(a) && forall p :: p in a ==> Kept(p)
  {
    var r := Step(states[j], events[j]).1;
    ResolveIffLive(states, events, j, r.peer, r.addresses);
    var i :| LiveSince(states, events, i, j, events[j].code) && InviteOf(events[i]).addresses == r.addresses;
    SanitizedAreDirect(events[i].addresses, a);
  }

  // ---- Counting answers ----

  ghost function RegisteredCount(states: seq<Service>, events: seq<Event>, n: nat, code: Text): nat
    requires n <= |events| <= |states|
  {
    if n == 0 then 0
    else RegisteredCount(states, events, n - 1, code) + if Registers(states[n - 1], events[n - 1], code) then 1 else 0
  }

  ghost predicate Resolves(s: Service, e: Event, code: Text) {
    e.Resolve? && e.code == code && Step(s, e).1.Resolved?
  }

  ghost function ResolvedCount(states: seq<Service>, events: seq<Event>, n: nat, code: Text): nat
    requires n <= |events| <= |states|
  {
    if n == 0 then 0
    else ResolvedCount(states, events, n - 1, code) + if Resolves(states[n - 1], events[n - 1], code) then 1 else 0
  }

  /** Each registration is answered at most once: resolutions, plus one for a held invite, never outnumber them. */
  lemma {:induction false} ResolvedWithinRegistered(states: seq<Service>, events: seq<Event>, n: nat, code: Text)
    requires IsRun(states, events) && n <= |events|
    ensures ResolvedCount(states, events, n, code) + (if code in states[n].invites then 1 else 0)
         <= RegisteredCount(states, events, n, code)
  {
    if n > 0 {
      ResolvedWithinRegistered(states, events, n - 1, code);
      CodeLaw(states[n - 1], events[n - 1], code);
      assert states[n] == Step(states[n - 1], events[n - 1]).0;
    }
  }

  // ---- Ownership ----

  /** A live code can only be re-registered by the peer that holds it. */
  lemma OnlyOwnerRegisters(s: Service, e: Event, code: Text)
    requires code in s.invites && Registers(s, e, code)
    ensures e.peer == s.invites[code].peer || Ends(e, code, s.invites[code])
  {
  }

  /**
   * If a code changes hands over a run, then in between someone resolved it, its first owner's
   * reservation ended, or the last invite that owner registered ran out.
   */
  lemma {:induction false} CodeChangesHands(states: seq<Service>, events: seq<Event>, i: nat, j: nat, code: Text)
    returns (k: nat)
    requires IsRun(states, events) && i <= j < |states|
    requires code in states[i].invites && code in states[j].invites
    requires states[i].invites[code].peer != states[j].invites[code].peer
    ensures i <= k < j && code in states[k].invites && states[k].invites[code].peer == states[i].invites[code].peer
    ensures Ends(events[k], code, states[k].invites[code])
    decreases j - i
  {
    assert states[i + 1] == Step(states[i], events[i]).0;
    CodeLaw(states[i], events[i], code);
    if Ends(events[i], code, states[i].invites[code]) {
      k := i;
    } else {
      if Registers(states[i], events[i], code) {
        OnlyOwnerRegisters(states[i], events[i], code);
      }
      k := CodeChangesHands(states, events, i + 1, j, code);
    }
  }
}
