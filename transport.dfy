/**
  The IPC transport to the desktop app, seen from the message service: connect,
  send one envelope and receive its response, disconnect. What the transport
  does is recorded as a history of calls; the desktop app's answer is a fixed
  function of the envelope, which loses nothing because no two envelopes the
  service sends are equal (each carries a new messageId).
*/
module Transport {
  import opened Messages

  /** One call the message service makes on the transport. */
  datatype Event = ConnectCall | SendCall(envelope: Envelope) | DisconnectCall

  /** The envelopes handed to the transport, in order. */
  function Sent(t: seq<Event>): (s: seq<Envelope>)
    ensures |s| <= |t|
    ensures forall e :: e in s <==> SendCall(e) in t
  {
    if t == [] then []
    else
      var s := Sent(t[..|t| - 1]) + (match t[|t| - 1] case SendCall(e) => [e] case _ => []);
      assert t == t[..|t| - 1] + [t[|t| - 1]];
      s
  }

  /** Whether the pipe is open after the calls in t: the last connect or disconnect decides. */
  predicate ConnectedAfter(t: seq<Event>) {
    if t == [] then false
    else match t[|t| - 1]
      case ConnectCall => true
      case DisconnectCall => false
      case SendCall(_) => ConnectedAfter(t[..|t| - 1])
  }

  /** How many times the pipe was opened: a connect opens it only when it is closed. */
  function PhysicalConnects(t: seq<Event>): nat {
    if t == [] then 0
    else
      PhysicalConnects(t[..|t| - 1])
      + (if t[|t| - 1] == ConnectCall && !ConnectedAfter(t[..|t| - 1]) then 1 else 0)
  }

  /** Every envelope is handed over right after a connect call. */
  ghost predicate ConnectsBeforeSends(t: seq<Event>) {
    forall i :: 0 <= i < |t| && t[i].SendCall? ==> 0 < i && t[i - 1] == ConnectCall
  }

  lemma {:induction false} SentAppend(t: seq<Event>, u: seq<Event>)
    ensures Sent(t + u) == Sent(t) + Sent(u)
    decreases |u|
  {
    if u == [] {
      assert t + u == t;
    } else {
      var u' := u[..|u| - 1];
      assert (t + u)[..|t + u| - 1] == t + u';
      assert (t + u)[|t + u| - 1] == u[|u| - 1];
      SentAppend(t, u');
    }
  }

  /** A second connect right after a first opens nothing. */
  lemma ConnectIsIdempotent(t: seq<Event>)
    ensures ConnectedAfter(t + [ConnectCall])
    ensures PhysicalConnects(t + [ConnectCall, ConnectCall]) == PhysicalConnects(t + [ConnectCall])
  {
    assert (t + [ConnectCall, ConnectCall])[..|t| + 1] == t + [ConnectCall];
  }

  /** Connecting when connected opens nothing; connecting when not connected opens the pipe once. */
  lemma ConnectOpensOnlyWhenClosed(t: seq<Event>)
    ensures PhysicalConnects(t + [ConnectCall])
         == PhysicalConnects(t) + (if ConnectedAfter(t) then 0 else 1)
  {
  }

  /** In a history where every send follows a connect, the pipe is open at every send. */
  lemma ConnectedAtEverySend(t: seq<Event>, i: nat)
    requires ConnectsBeforeSends(t)
    requires i < |t| && t[i].SendCall?
    ensures ConnectedAfter(t[..i])
  {
  }

  /**
    The IPCService as the message service uses it. `counterpart` is the desktop
    app: the response it sends back for an envelope.
  */
  class IpcService {
    const counterpart: Envelope -> Response
    var connected: bool
    /** The calls made so far. */
    ghost var trace: seq<Event>
    /** How many times the pipe was opened. */
    ghost var openings: nat

    ghost predicate Valid()
      reads this
    {
      connected == ConnectedAfter(trace) && openings == PhysicalConnects(trace)
    }

    constructor (counterpart: Envelope -> Response)
      ensures Valid()
      ensures this.counterpart == counterpart
      ensures !connected && trace == [] && openings == 0
    {
      this.counterpart := counterpart;
      connected := false;
      trace := [];
      openings := 0;
    }

    /** Opens the pipe unless it is open already, in which case nothing happens. */
    method Connect()
      requires Valid()
      modifies this
      ensures Valid()
      ensures connected
      ensures trace == old(trace) + [ConnectCall]
      ensures openings == old(openings) + (if old(connected) then 0 else 1)
    {
      ConnectOpensOnlyWhenClosed(trace);
      if !connected {
        connected := true;
        openings := openings + 1;
      }
      trace := trace + [ConnectCall];
    }

    /** Hands one envelope to the desktop app and returns its response. */
    method SendMessage(message: Envelope) returns (response: Response)
      requires Valid()
      modifies this
      ensures Valid()
      ensures connected == old(connected) && openings == old(openings)
      ensures trace == old(trace) + [SendCall(message)]
      ensures response == counterpart(message)
    {
      assert (trace + [SendCall(message)])[..|trace|] == trace;
      trace := trace + [SendCall(message)];
      response := counterpart(message);
    }

    /** Closes the pipe; closing a closed pipe does nothing. */
    method Disconnect()
      requires Valid()
      modifies this
      ensures Valid()
      ensures !connected && openings == old(openings)
      ensures trace == old(trace) + [DisconnectCall]
    {
      assert (trace + [DisconnectCall])[..|trace|] == trace;
      connected := false;
      trace := trace + [DisconnectCall];
    }
  }
}
