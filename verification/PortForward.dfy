/** The two-phase relay of src/port_forward.rs: while the client logs in, local bytes are kept in
    a buffer; then the stream turns raw, the buffer is sent, and bytes go both ways.  Each event
    is one branch taken by a select loop.  A failed send is logged and ignored. */
module PortForward {
  import opened Common

  type Bytes = seq<Byte>

  /** What a login-phase message from the peer parses to. */
  datatype Message = HashChallenge | LoginRefused(again: bool) | LoginAccepted | TestDelay | Unhandled | Malformed

  /** `ok` says whether the send that the event leads to succeeds. */
  datatype Event =
    | FromPeer(bytes: Bytes, parsed: Message, ok: bool)
    | PeerGone
    | FromLocal(bytes: Bytes, ok: bool)
    | LocalGone
    | FromUi(answers: bool)

  /** What is put on the stream to the peer. */
  datatype Item = Protocol | Raw(bytes: Bytes)

  datatype Phase = LoggingIn | Forwarding | Closed

  datatype Relay = Relay(phase: Phase, buffer: Bytes, toPeer: seq<Item>, toLocal: Bytes)

  const START := Relay(LoggingIn, [], [], [])

  function Say(r: Relay): Relay { r.(toPeer := r.toPeer + [Protocol]) }

  function SendRaw(r: Relay, bytes: Bytes, ok: bool): Relay {
    if ok then r.(toPeer := r.toPeer + [Raw(bytes)]) else r
  }

  /** One turn of the login loop; accepting the login hands over to forwarding. */
  function LoginStep(r: Relay, e: Event): Relay {
    match e
    case FromPeer(_, parsed, ok) =>
      (match parsed
       case HashChallenge => Say(r)
       case TestDelay => Say(r)
       case LoginRefused(again) => if again then r else r.(phase := Closed)
       case LoginAccepted =>
         var raw := r.(phase := Forwarding, buffer := []);
         if r.buffer == [] then raw else SendRaw(raw, r.buffer, ok)
       case Unhandled => r
       case Malformed => r.(phase := Closed))
    case PeerGone => r.(phase := Closed)
    case FromLocal(bytes, _) => r.(buffer := r.buffer + bytes)
    case LocalGone => r.(phase := Closed)
    case FromUi(answers) => if answers then Say(r) else r
  }

  /** One turn of the forwarding loop. */
  function ForwardStep(r: Relay, e: Event): Relay {
    match e
    case FromPeer(bytes, _, ok) => if ok then r.(toLocal := r.toLocal + bytes) else r
    case FromLocal(bytes, ok) => SendRaw(r, bytes, ok)
    case PeerGone => r.(phase := Closed)
    case LocalGone => r.(phase := Closed)
    case FromUi(_) => r
  }

  function Step(r: Relay, e: Event): Relay {
    match r.phase
    case LoggingIn => LoginStep(r, e)
    case Forwarding => ForwardStep(r, e)
    case Closed => r
  }

  function Run(events: seq<Event>): Relay {
    if events == [] then START else Step(Run(events[..|events| - 1]), events[|events| - 1])
  }

  // ---------------------------------------------------------------- the two loops, in place

  class PortForwarder {
    var relay: Relay

    constructor ()
      ensures relay == START
    {
      relay := START;
    }

    /** Runs on events until it returns; `n` is the number of events taken. */
    method ConnectAndLogin(events: seq<Event>) returns (n: nat)
      requires relay == START
      modifies this
      ensures n <= |events| && relay == Run(events[..n])
      ensures relay.phase == LoggingIn ==> n == |events|
    {
      n := 0;
      var buffer: Bytes := [];
      while n < |events| && relay.phase == LoggingIn
        invariant n <= |events| && relay == Run(events[..n])
        invariant relay.phase == LoggingIn ==> relay.buffer == buffer
        decreases |events| - n
      {
        assert events[..n + 1][..n] == events[..n];
        match events[n] {
          case PeerGone =>
            relay := relay.(phase := Closed);
          case FromPeer(_, parsed, ok) =>
            match parsed {
              case HashChallenge =>
                relay := relay.(toPeer := relay.toPeer + [Protocol]);
              case LoginRefused(again) =>
                if !again {
                  relay := relay.(phase := Closed);
                }
              case LoginAccepted =>
                relay := relay.(phase := Forwarding, buffer := []);
                if buffer != [] && ok {
                  relay := relay.(toPeer := relay.toPeer + [Raw(buffer)]);
                }
              case TestDelay =>
                relay := relay.(toPeer := relay.toPeer + [Protocol]);
              case Unhandled =>
              case Malformed =>
                relay := relay.(phase := Closed);
            }
          case FromUi(answers) =>
            if answers {
              relay := relay.(toPeer := relay.toPeer + [Protocol]);
            }
          case FromLocal(bytes, _) =>
            buffer := buffer + bytes;
            relay := relay.(buffer := buffer);
          case LocalGone =>
            relay := relay.(phase := Closed);
        }
        n := n + 1;
      }
    }

    method RunForward(events: seq<Event>, first: nat)
      requires first <= |events| && relay == Run(events[..first]) && relay.phase != LoggingIn
      modifies this
      ensures relay == Run(events)
    {
      var n := first;
      while n < |events|
        invariant first <= n <= |events| && relay == Run(events[..n]) && relay.phase != LoggingIn
      {
        assert events[..n + 1][..n] == events[..n];
        if relay.phase == Forwarding {
          match events[n] {
            case FromLocal(bytes, ok) =>
              if ok {
                relay := relay.(toPeer := relay.toPeer + [Raw(bytes)]);
              }
            case FromPeer(bytes, _, ok) =>
              if ok {
                relay := relay.(toLocal := relay.toLocal + bytes);
              }
            case PeerGone => relay := relay.(phase := Closed);
            case LocalGone => relay := relay.(phase := Closed);
            case FromUi(_) =>
          }
        }
        n := n + 1;
      }
      assert events[..n] == events;
    }
  }

  // ---------------------------------------------------------------- the phases

  /** The phase after every event of the login, and what is answered: the login goes on until it is accepted,
      finally refused, unreadable or cut off, and hash challenges, delay tests and the user's logins are
      answered. */
  lemma LoginPhase(r: Relay, e: Event)
    requires r.phase == LoggingIn
    ensures var t := Step(r, e);
      && (t.phase == Forwarding <==> e.FromPeer? && e.parsed == LoginAccepted)
      && (t.phase == Closed <==>
            e.PeerGone? || e.LocalGone? || (e.FromPeer? && e.parsed in {LoginRefused(false), Malformed}))
      && t.toLocal == r.toLocal
      && t.toPeer == r.toPeer + (
           if (e.FromPeer? && e.parsed in {HashChallenge, TestDelay}) || (e.FromUi? && e.answers) then [Protocol]
           else if t.phase == Forwarding && r.buffer != [] && e.ok then [Raw(r.buffer)]
           else [])
      && t.buffer == (if e.FromLocal? then r.buffer + e.bytes else if t.phase == Forwarding then [] else r.buffer)
  {
    assert r.toPeer + [] == r.toPeer;
  }

  /** And of forwarding: it ends when either side does, and else passes the chunk on. */
  lemma ForwardPhase(r: Relay, e: Event)
    requires r.phase == Forwarding
    ensures var t := Step(r, e);
      && (t.phase == Closed <==> e.PeerGone? || e.LocalGone?)
      && (t.phase == Forwarding <==> !(e.PeerGone? || e.LocalGone?))
      && t.buffer == r.buffer
      && t.toPeer == r.toPeer + (if e.FromLocal? && e.ok then [Raw(e.bytes)] else [])
      && t.toLocal == r.toLocal + (if e.FromPeer? && e.ok then e.bytes else [])
  {
    assert r.toPeer + [] == r.toPeer && r.toLocal + [] == r.toLocal;
  }

  /** Nothing happens after the end. */
  lemma ClosedStays(r: Relay, e: Event)
    requires r.phase == Closed
    ensures Step(r, e) == r
  {
  }

  // ---------------------------------------------------------------- what went through

  /** The bytes the peer was given raw. */
  function RawBytes(items: seq<Item>): Bytes {
    if items == [] then []
    else
      var last := items[|items| - 1];
      RawBytes(items[..|items| - 1]) + if last.Raw? then last.bytes else []
  }

  /** The bytes read from the local side: those of every event before the relay closed. */
  function LocalRead(events: seq<Event>): Bytes {
    if events == [] then []
    else
      var before, e := events[..|events| - 1], events[|events| - 1];
      LocalRead(before) + if Run(before).phase != Closed && e.FromLocal? then e.bytes else []
  }

  /** The bytes read from the peer after the login. */
  function PeerRead(events: seq<Event>): Bytes {
    if events == [] then []
    else
      var before, e := events[..|events| - 1], events[|events| - 1];
      PeerRead(before) + if Run(before).phase == Forwarding && e.FromPeer? then e.bytes else []
  }

  /** Bytes that a step takes from one side and fails to give to the other. */
  function LostUp(r: Relay, e: Event): Bytes {
    if r.phase == Forwarding && e.FromLocal? && !e.ok then e.bytes
    else if r.phase == LoggingIn && e.FromPeer? && e.parsed == LoginAccepted && !e.ok then r.buffer
    else []
  }

  function LostDown(r: Relay, e: Event): Bytes {
    if r.phase == Forwarding && e.FromPeer? && !e.ok then e.bytes else []
  }

  function TotalLost(events: seq<Event>): (nat, nat) {
    if events == [] then (0, 0)
    else
      var before, e := events[..|events| - 1], events[|events| - 1];
      var t := TotalLost(before);
      (t.0 + |LostUp(Run(before), e)|, t.1 + |LostDown(Run(before), e)|)
  }

  lemma {:induction false} RawMore(items: seq<Item>, item: Item)
    ensures RawBytes(items + [item]) == RawBytes(items) + if item.Raw? then item.bytes else []
  {
    assert (items + [item])[..|items|] == items;
  }

  ghost predicate NoRaw(items: seq<Item>) { forall i :: 0 <= i < |items| ==> items[i].Protocol? }

  /** Protocol messages first, raw bytes after. */
  ghost predicate RawLast(items: seq<Item>) {
    forall i, j :: 0 <= i < j < |items| && items[i].Raw? ==> items[j].Raw?
  }

  ghost predicate Accepts(e: Event) { e.FromPeer? && e.parsed == LoginAccepted }

  lemma OneMoreItem(items: seq<Item>, item: Item)
    ensures NoRaw(items) ==> RawLast(items) && RawLast(items + [item])
    ensures RawLast(items) && item.Raw? ==> RawLast(items + [item])
    ensures NoRaw(items) && item.Protocol? ==> NoRaw(items + [item])
  {
  }

  /** What each phase may have put on the streams, given whether the login was ever accepted. */
  ghost predicate Ordered(r: Relay, accepted: bool) {
    && RawLast(r.toPeer)
    && (!accepted ==> NoRaw(r.toPeer) && r.phase != Forwarding)
    && (r.phase == LoggingIn ==> NoRaw(r.toPeer) && r.toLocal == [])
    && (r.phase == Forwarding ==> r.buffer == [])
  }

  lemma StepOrdered(r: Relay, e: Event, accepted: bool)
    requires Ordered(r, accepted)
    ensures Ordered(Step(r, e), accepted || Accepts(e))
  {
    var t := Step(r, e);
    if t.toPeer != r.toPeer {
      var item := t.toPeer[|r.toPeer|];
      assert t.toPeer == r.toPeer + [item];
      OneMoreItem(r.toPeer, item);
    }
  }

  ghost predicate EverAccepted(events: seq<Event>) {
    exists i :: 0 <= i < |events| && Accepts(events[i])
  }

  lemma AcceptedMore(before: seq<Event>, e: Event)
    ensures EverAccepted(before + [e]) <==> EverAccepted(before) || Accepts(e)
  {
    assert (before + [e])[|before|] == e;
    if i :| 0 <= i < |before| && Accepts(before[i]) { assert Accepts((before + [e])[i]); }
  }

  /** Nothing raw is sent before the login succeeds, and nothing else after. */
  lemma {:induction false} RawOnlyAfterLogin(events: seq<Event>)
    ensures RawLast(Run(events).toPeer)
    ensures !EverAccepted(events) ==> NoRaw(Run(events).toPeer) && Run(events).phase != Forwarding
    ensures Run(events).phase == LoggingIn ==> NoRaw(Run(events).toPeer) && Run(events).toLocal == []
    ensures Run(events).phase == Forwarding ==> Run(events).buffer == []
  {
    if events != [] {
      var before, e := events[..|events| - 1], events[|events| - 1];
      RawOnlyAfterLogin(before);
      StepOrdered(Run(before), e, EverAccepted(before));
      AcceptedMore(before, e);
      assert before + [e] == events;
    }
  }

  /** Bytes that a step gives to the peer raw, and bytes it reads from the local side. */
  function SentUp(r: Relay, e: Event): Bytes {
    if r.phase == Forwarding && e.FromLocal? && e.ok then e.bytes
    else if r.phase == LoggingIn && e.FromPeer? && e.parsed == LoginAccepted && e.ok then r.buffer
    else []
  }

  function ReadLocal(r: Relay, e: Event): Bytes {
    if r.phase != Closed && e.FromLocal? then e.bytes else []
  }

  lemma StepSends(r: Relay, e: Event)
    ensures RawBytes(Step(r, e).toPeer) == RawBytes(r.toPeer) + SentUp(r, e)
  {
    var t := Step(r, e);
    if t.toPeer != r.toPeer {
      assert t.toPeer == r.toPeer + [t.toPeer[|r.toPeer|]];
      RawMore(r.toPeer, t.toPeer[|r.toPeer|]);
    } else {
      assert RawBytes(r.toPeer) + [] == RawBytes(r.toPeer);
    }
  }

  /** What a step sends, loses and keeps is what it had and read, in order. */
  lemma StepKeepsBytes(r: Relay, e: Event)
    requires r.phase == Forwarding ==> r.buffer == []
    ensures SentUp(r, e) + LostUp(r, e) + Step(r, e).buffer == r.buffer + ReadLocal(r, e)
  {
  }

  lemma Chain(read: Bytes, raw: Bytes, buffer: Bytes, sent: Bytes, lost: Bytes, kept: Bytes, more: Bytes, total: nat)
    requires |read| == |raw| + |buffer| + total && (read == raw + buffer <==> total == 0)
    requires sent + lost + kept == buffer + more
    ensures |read + more| == |raw + sent| + |kept| + (total + |lost|)
    ensures read + more == raw + sent + kept <==> total + |lost| == 0
  {
    assert |sent + lost + kept| == |buffer + more|;
    if total == 0 && lost == [] {
      assert sent + kept == buffer + more;
      assert raw + sent + kept == raw + (sent + kept);
      assert read + more == raw + (buffer + more);
    }
  }

  /** Conservation: every local byte was given to the peer, waits in the login buffer, or was lost
      in a failed send; and with no failure they arrive whole and in order, across the handover. */
  lemma {:induction false} UpstreamConserved(events: seq<Event>)
    ensures var r := Run(events);
      |LocalRead(events)| == |RawBytes(r.toPeer)| + |r.buffer| + TotalLost(events).0
    ensures LocalRead(events) == RawBytes(Run(events).toPeer) + Run(events).buffer <==> TotalLost(events).0 == 0
  {
    if events != [] {
      var before, e := events[..|events| - 1], events[|events| - 1];
      UpstreamConserved(before);
      RawOnlyAfterLogin(before);
      var r, t := Run(before), Run(events);
      StepSends(r, e);
      StepKeepsBytes(r, e);
      Chain(LocalRead(before), RawBytes(r.toPeer), r.buffer, SentUp(r, e), LostUp(r, e), t.buffer,
            ReadLocal(r, e), TotalLost(before).0);
    }
  }

  lemma {:induction false} DownstreamConserved(events: seq<Event>)
    ensures |PeerRead(events)| == |Run(events).toLocal| + TotalLost(events).1
    ensures PeerRead(events) == Run(events).toLocal <==> TotalLost(events).1 == 0
  {
    if events != [] { DownstreamConserved(events[..|events| - 1]); }
  }

  /** With successful sends the peer has always been given a prefix of the local bytes, all of
      them while forwarding, and the local side exactly the peer's bytes. */
  lemma {:induction false} RelaysInOrder(events: seq<Event>)
    requires forall i :: 0 <= i < |events| ==> (events[i].FromPeer? || events[i].FromLocal? ==> events[i].ok)
    ensures RawBytes(Run(events).toPeer) <= LocalRead(events)
    ensures Run(events).phase == Forwarding ==> RawBytes(Run(events).toPeer) == LocalRead(events)
    ensures Run(events).toLocal == PeerRead(events)
  {
    NothingLost(events);
    UpstreamConserved(events);
    DownstreamConserved(events);
    RawOnlyAfterLogin(events);
  }

  lemma {:induction false} NothingLost(events: seq<Event>)
    requires forall i :: 0 <= i < |events| ==> (events[i].FromPeer? || events[i].FromLocal? ==> events[i].ok)
    ensures TotalLost(events) == (0, 0)
  {
    if events != [] {
      var before := events[..|events| - 1];
      assert forall i :: 0 <= i < |before| ==> before[i] == events[i];
      NothingLost(before);
    }
  }
}
