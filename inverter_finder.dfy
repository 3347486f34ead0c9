/**
 * Finding an inverter (class InverterFinder: listen, find_inverter and the context manager).
 *
 * The finder owns a broadcast socket and a listening socket. find_inverter repeats, at most
 * `advertisements` times: broadcast one advertisement, then wait a bounded time for an inverter to
 * connect back. The network is an oracle: `accepts[i]` says whether the i-th wait accepted a
 * connection, and from which address; a wait beyond the end of `accepts` times out.
 */
module InverterDiscovery {
  import opened Wrappers

  /** The TCP port the finder listens on and inverters connect back to. */
  const ListenPort: nat := 1200

  datatype Address = Address(host: string, port: nat)

  datatype FinderState = Unbound | Listening | Closed

  datatype Found =
    | Connected(peer: Address)
    | InverterNotFound     // every advertisement timed out
    | NotListening         // the sockets were never bound, or already closed

  /** The first wait among the first `advertisements` that accepted a connection. */
  function FirstAccept(accepts: seq<Option<Address>>, advertisements: nat): (r: Option<nat>)
    ensures r.Some? ==> r.value < advertisements && r.value < |accepts| && accepts[r.value].Some?
    ensures r.Some? ==> forall i :: 0 <= i < r.value ==> accepts[i].None?
    ensures r.None? <==> forall i :: 0 <= i < advertisements && i < |accepts| ==> accepts[i].None?
  {
    if advertisements == 0 || accepts == [] then None
    else if accepts[0].Some? then Some(0)
    else match FirstAccept(accepts[1..], advertisements - 1)
      case None => None
      case Some(i) => Some(i + 1)
  }

  class InverterFinder {
    var state: FinderState
    /** How many advertisement datagrams were broadcast. */
    var advertised: nat
    /** How many times the listening socket was bound. */
    ghost var binds: nat

    constructor ()
      ensures state == Unbound && advertised == 0 && binds == 0
    {
      state, advertised := Unbound, 0;
      binds := 0;
    }

    /** listen: binds the listening socket once; when already listening it does nothing. */
    method Listen() returns (ok: bool)
      modifies this
      ensures ok == (old(state) != Closed)
      ensures state == (if old(state) == Closed then Closed else Listening)
      ensures binds == old(binds) + (if old(state) == Unbound then 1 else 0)
      ensures advertised == old(advertised)
    {
      if state == Unbound {
        state := Listening;
        binds := binds + 1;
      }
      ok := state == Listening;
    }

    /** Entering the context: listen unless already listening. */
    method Enter() returns (ok: bool)
      modifies this
      ensures ok == (old(state) != Closed)
      ensures state == (if old(state) == Closed then Closed else Listening)
      ensures binds == old(binds) + (if old(state) == Unbound then 1 else 0)
      ensures advertised == old(advertised)
    {
      ok := Listen();
    }

    /** Leaving the context: both sockets are closed, whatever their state; it never fails. */
    method Exit()
      modifies this
      ensures state == Closed && advertised == old(advertised) && binds == old(binds)
    {
      state := Closed;
    }

    /**
     * find_inverter: at most `advertisements` rounds of broadcast-then-wait; the first accepted
     * connection is returned at once and the remaining rounds are abandoned.
     */
    method FindInverter(advertisements: nat, accepts: seq<Option<Address>>) returns (r: Found)
      modifies this
      ensures old(state) != Listening ==> r == NotListening && advertised == old(advertised)
      ensures old(state) == Listening ==>
                match FirstAccept(accepts, advertisements)
                case Some(i) => r == Connected(accepts[i].value) && advertised == old(advertised) + i + 1
                case None => r == InverterNotFound && advertised == old(advertised) + advertisements
      ensures state == old(state) && binds == old(binds)
    {
      if state != Listening {
        return NotListening;
      }
      var attempt := 0;
      while attempt < advertisements
        invariant attempt <= advertisements
        invariant advertised == old(advertised) + attempt
        invariant state == old(state) && binds == old(binds)
        invariant forall i :: 0 <= i < attempt && i < |accepts| ==> accepts[i].None?
      {
        advertised := advertised + 1;
        var accepted := if attempt < |accepts| then accepts[attempt] else None;
        if accepted.Some? {
          FirstAcceptAt(accepts, advertisements, attempt);
          return Connected(accepted.value);
        }
        attempt := attempt + 1;
      }
      return InverterNotFound;
    }
  }

  /** The first accepted wait is the one after an unbroken run of time-outs. */
  lemma {:induction false} FirstAcceptAt(accepts: seq<Option<Address>>, advertisements: nat, i: nat)
    requires i < advertisements && i < |accepts| && accepts[i].Some?
    requires forall j :: 0 <= j < i ==> accepts[j].None?
    ensures FirstAccept(accepts, advertisements) == Some(i)
  {
    if i > 0 {
      FirstAcceptAt(accepts[1..], advertisements - 1, i - 1);
    }
  }

  /** With nobody answering, two advertisements end in InverterNotFound after two broadcasts. */
  method NotFoundScenario() returns (r: Found, advertised: nat)
    ensures r == InverterNotFound && advertised == 2
  {
    var finder := new InverterFinder();
    var ok := finder.Enter();
    r := finder.FindInverter(2, []);
    advertised := finder.advertised;
    finder.Exit();
  }

  /** An inverter that connects back during the first wait is returned with its address. */
  method NewConnectionScenario(peer: Address) returns (r: Found, advertised: nat)
    ensures r == Connected(peer) && advertised == 1
  {
    var finder := new InverterFinder();
    var ok := finder.Enter();
    r := finder.FindInverter(10, [Some(peer)]);
    advertised := finder.advertised;
    finder.Exit();
  }

  /** listen followed by entering the context succeeds twice and binds only once. */
  method EnterAfterListen() returns (first: bool, second: bool, state: FinderState, ghost binds: nat)
    ensures first && second && state == Listening && binds == 1
  {
    var finder := new InverterFinder();
    first := finder.Listen();
    second := finder.Enter();
    state, binds := finder.state, finder.binds;
    finder.Exit();
  }
}
