/** The merge of discovery responses in src/lan.rs: the stored peers are marked offline, and
    every response moves its peer to the front, merging the addresses of this round. */
module LanDiscovery {
  import opened Common

  datatype Peer = Peer(
    id: string,
    username: string,
    hostname: string,
    platform: string,
    online: bool,
    ipMac: map<string, string>)

  /** What makes two entries the same peer. */
  datatype PeerKey = PeerKey(id: string, username: string)

  function KeyOf(p: Peer): PeerKey { PeerKey(p.id, p.username) }

  // ---------------------------------------------------------------- the receive loop

  datatype State = State(peers: seq<Peer>, responseSet: set<string>)

  /** First position of a peer with this key, or the length. */
  function Position(peers: seq<Peer>, k: PeerKey): (pos: nat)
    ensures pos <= |peers|
    ensures pos < |peers| ==> KeyOf(peers[pos]) == k
    ensures forall i :: 0 <= i < pos ==> KeyOf(peers[i]) != k
  {
    if peers == [] || KeyOf(peers[0]) == k then 0 else 1 + Position(peers[1..], k)
  }

  function Offline(peers: seq<Peer>): seq<Peer> {
    if peers == [] then [] else [peers[0].(online := false)] + Offline(peers[1..])
  }

  /** Addresses already known win over those of the new response. */
  function Merge(response: Peer, known: Peer): Peer {
    response.(ipMac := response.ipMac + known.ipMac, online := true)
  }

  function Receive(s: State, response: Peer): State {
    var pos := Position(s.peers, KeyOf(response));
    var seen := response.id in s.responseSet;
    if pos < |s.peers| then
      var merged := if seen then Merge(response, s.peers[pos]) else response;
      State([merged] + (s.peers[..pos] + s.peers[pos + 1..]), s.responseSet + {response.id})
    else
      State([response] + s.peers, s.responseSet + {response.id})
  }

  function ReceiveAll(stored: seq<Peer>, responses: seq<Peer>): State {
    if responses == [] then State(Offline(stored), {})
    else Receive(ReceiveAll(stored, responses[..|responses| - 1]), responses[|responses| - 1])
  }

  /** The peers file. */
  class LanPeers {
    var peers: seq<Peer>
    ghost var written: seq<seq<Peer>>

    constructor (peers: seq<Peer>)
      ensures this.peers == peers && written == []
    {
      this.peers, written := peers, [];
    }

    method Store(list: seq<Peer>)
      modifies this
      ensures peers == list && written == old(written) + [list]
    {
      peers, written := list, written + [list];
    }
  }

  /** The responses after which the file is written. */
  ghost function Writes(clock: seq<int>): (at: seq<nat>)
    ensures forall k :: 0 <= k < |at| ==> at[k] < |clock|
  {
    if clock == [] then []
    else
      var n := |clock| - 1;
      var at := Writes(clock[..n]);
      if at == [] || clock[n] - clock[at[|at| - 1]] > 300 then at + [n] else at
  }

  /** The list after each of these responses. */
  ghost function Snapshots(stored: seq<Peer>, responses: seq<Peer>, at: seq<nat>): seq<seq<Peer>>
    requires forall k :: 0 <= k < |at| ==> at[k] < |responses|
  {
    seq(|at|, k requires 0 <= k < |at| => ReceiveAll(stored, responses[..at[k] + 1]).peers)
  }

  /** The time of the last write. */
  ghost function LastWrite(clock: seq<int>): Option<int> {
    var at := Writes(clock);
    if at == [] then None else Some(clock[at[|at| - 1]])
  }

  /** The lists written during the first `n` responses. */
  ghost function Written(stored: seq<Peer>, responses: seq<Peer>, clock: seq<int>, n: nat): seq<seq<Peer>>
    requires n <= |clock| == |responses|
  {
    Snapshots(stored, responses, Writes(clock[..n]))
  }

  lemma {:induction false} WrittenMore(stored: seq<Peer>, responses: seq<Peer>, clock: seq<int>, n: nat)
    requires n < |clock| == |responses|
    ensures var last := LastWrite(clock[..n]);
      if last.None? || clock[n] - last.value > 300 then
        && LastWrite(clock[..n + 1]) == Some(clock[n])
        && Written(stored, responses, clock, n + 1) ==
           Written(stored, responses, clock, n) + [ReceiveAll(stored, responses[..n + 1]).peers]
      else
        && LastWrite(clock[..n + 1]) == last
        && Written(stored, responses, clock, n + 1) == Written(stored, responses, clock, n)
  {
    assert clock[..n + 1][..n] == clock[..n];
    SnapshotsMore(stored, responses, Writes(clock[..n]), n);
  }

  lemma {:induction false} SnapshotsMore(stored: seq<Peer>, responses: seq<Peer>, at: seq<nat>, n: nat)
    requires n < |responses| && forall k :: 0 <= k < |at| ==> at[k] < |responses|
    ensures Snapshots(stored, responses, at + [n]) ==
            Snapshots(stored, responses, at) + [ReceiveAll(stored, responses[..n + 1]).peers]
  {
  }

  /** `to` is the first response more than 300 ms after response `from`, or the end. */
  ghost predicate Next(clock: seq<int>, from: nat, to: nat) {
    && from < to <= |clock|
    && (to < |clock| ==> clock[to] - clock[from] > 300)
    && (forall i :: from < i < to ==> clock[i] - clock[from] <= 300)
  }

  /** The first response is written, and after each write the next one that comes more than
      300 ms later. */
  ghost predicate Throttled(clock: seq<int>, at: seq<nat>) {
    && (clock == [] <==> at == [])
    && (at != [] ==> at[0] == 0 && Next(clock, at[|at| - 1], |clock|))
    && (forall k :: 0 < k < |at| ==> at[k] < |clock| && Next(clock, at[k - 1], at[k]))
  }

  lemma ThrottledMore(clock: seq<int>, time: int, at: seq<nat>)
    requires Throttled(clock, at) && forall k :: 0 <= k < |at| ==> at[k] < |clock|
    ensures Throttled(clock + [time],
                      if at == [] || time - clock[at[|at| - 1]] > 300 then at + [|clock|] else at)
  {
  }

  lemma {:induction false} WritesMeaning(clock: seq<int>)
    ensures Throttled(clock, Writes(clock))
  {
    if clock != [] {
      var before, time := clock[..|clock| - 1], clock[|clock| - 1];
      var at := Writes(before);
      var more := if at == [] || time - before[at[|at| - 1]] > 300 then at + [|before|] else at;
      assert Writes(clock) == more;
      assert Throttled(clock, more) by {
        WritesMeaning(before);
        ThrottledMore(before, time, at);
        assert clock == before + [time];
      }
    }
  }

  /** What is written during a round, and when. */
  lemma WrittenMeaning(stored: seq<Peer>, responses: seq<Peer>, clock: seq<int>) returns (at: seq<nat>)
    requires |clock| == |responses|
    ensures Throttled(clock, at) && forall k :: 0 <= k < |at| ==> at[k] < |responses|
    ensures Written(stored, responses, clock, |clock|) == Snapshots(stored, responses, at)
  {
    assert clock[..|clock|] == clock;
    at := Writes(clock);
    WritesMeaning(clock);
  }

  method MarkOffline(stored: seq<Peer>) returns (peers: seq<Peer>)
    ensures peers == Offline(stored)
  {
    peers := stored;
    var i := 0;
    while i < |peers|
      invariant 0 <= i <= |peers| == |stored| && peers[i..] == stored[i..]
      invariant Offline(stored) == peers[..i] + Offline(stored[i..])
    {
      assert stored[i..][1..] == stored[i + 1..];
      ghost var before := peers[..i];
      peers := peers[i := peers[i].(online := false)];
      assert peers[..i + 1] == before + [peers[i]];
      i := i + 1;
    }
    assert Offline(stored[|stored|..]) == [] && peers[..i] == peers;
  }

  lemma {:induction false} ReceivedMore(stored: seq<Peer>, responses: seq<Peer>, n: nat)
    requires n < |responses|
    ensures ReceiveAll(stored, responses[..n + 1]) == Receive(ReceiveAll(stored, responses[..n]), responses[n])
  {
    assert responses[..n + 1][..n] == responses[..n];
  }

  /** `clock[i]` is the time of response i in milliseconds; the file is written at most every
      300 ms during the round, and once at its end. */
  method HandleReceivedPeers(file: LanPeers, responses: seq<Peer>, clock: seq<int>)
    requires |clock| == |responses|
    modifies file
    ensures file.peers == ReceiveAll(old(file.peers), responses).peers
    ensures file.written == old(file.written) + Written(old(file.peers), responses, clock, |clock|) + [file.peers]
  {
    ghost var stored := file.peers;
    var peers := MarkOffline(file.peers);
    var responseSet: set<string> := {};
    var lastWrite: Option<int> := None;
    for n := 0 to |responses|
      invariant State(peers, responseSet) == ReceiveAll(stored, responses[..n])
      invariant lastWrite == LastWrite(clock[..n])
      invariant file.written == old(file.written) + Written(stored, responses, clock, n)
    {
      ReceivedMore(stored, responses, n);
      peers, responseSet := ReceiveOne(peers, responseSet, responses[n]);
      WrittenMore(stored, responses, clock, n);
      Associate(old(file.written), Written(stored, responses, clock, n), [peers]);
      if lastWrite.None? || clock[n] - lastWrite.value > 300 {
        file.Store(peers);
        lastWrite := Some(clock[n]);
      }
    }
    assert responses[..|responses|] == responses;
    file.Store(peers);
  }

  /** The body of the receive loop, but for the write. */
  method ReceiveOne(peers0: seq<Peer>, responseSet0: set<string>, response: Peer)
    returns (peers: seq<Peer>, responseSet: set<string>)
    ensures State(peers, responseSet) == Receive(State(peers0, responseSet0), response)
  {
    peers, responseSet := peers0, responseSet0;
    var peer := response;
    var inResponseSet := peer.id in responseSet;
    responseSet := responseSet + {peer.id};
    var pos := Position(peers, KeyOf(peer));
    if pos < |peers| {
      var peer1 := peers[pos];
      peers := peers[..pos] + peers[pos + 1..];
      if inResponseSet {
        peer := peer.(ipMac := peer.ipMac + peer1.ipMac);
        peer := peer.(online := true);
      }
    }
    peers := [peer] + peers;
  }

  // ---------------------------------------------------------------- the specification

  function Keys(peers: seq<Peer>): seq<PeerKey> {
    if peers == [] then [] else [KeyOf(peers[0])] + Keys(peers[1..])
  }

  ghost predicate Distinct<T>(s: seq<T>) {
    forall i, j :: 0 <= i < j < |s| ==> s[i] != s[j]
  }

  /** The peers with other keys than `k`, in order. */
  function Without(peers: seq<Peer>, k: PeerKey): seq<Peer> {
    if peers == [] then []
    else if KeyOf(peers[0]) == k then Without(peers[1..], k)
    else [peers[0]] + Without(peers[1..], k)
  }

  function WithoutKey(keys: seq<PeerKey>, k: PeerKey): seq<PeerKey> {
    if keys == [] then []
    else if keys[0] == k then WithoutKey(keys[1..], k)
    else [keys[0]] + WithoutKey(keys[1..], k)
  }

  /** The distinct responders, the one that answered last first. */
  function RecentFirst(responses: seq<Peer>): seq<PeerKey> {
    if responses == [] then []
    else
      var k := KeyOf(responses[|responses| - 1]);
      [k] + WithoutKey(RecentFirst(responses[..|responses| - 1]), k)
  }

  ghost predicate Answered(responses: seq<Peer>, k: PeerKey) {
    exists i :: 0 <= i < |responses| && KeyOf(responses[i]) == k
  }

  ghost predicate IdAnswered(responses: seq<Peer>, id: string) {
    exists i :: 0 <= i < |responses| && responses[i].id == id
  }

  /** The entry of a responder. */
  ghost function Entry(stored: seq<Peer>, responses: seq<Peer>, k: PeerKey): Peer
    requires Answered(responses, k)
  {
    var before, last := responses[..|responses| - 1], responses[|responses| - 1];
    if KeyOf(last) != k then Entry(stored, before, k)
    else if Answered(before, k) then Merge(last, Entry(stored, before, k))
    else
      var pos := Position(stored, k);
      if pos < |stored| && IdAnswered(before, k.id) then Merge(last, stored[pos]) else last
  }

  ghost function Entries(stored: seq<Peer>, responses: seq<Peer>, keys: seq<PeerKey>): seq<Peer>
    requires forall k :: k in keys ==> Answered(responses, k)
  {
    if keys == [] then [] else [Entry(stored, responses, keys[0])] + Entries(stored, responses, keys[1..])
  }

  /** Stored peers that did not answer, offline, in their old order. */
  ghost function Unanswered(stored: seq<Peer>, responses: seq<Peer>): seq<Peer> {
    if responses == [] then Offline(stored)
    else Without(Unanswered(stored, responses[..|responses| - 1]), KeyOf(responses[|responses| - 1]))
  }

  // ---------------------------------------------------------------- sequences

  lemma {:induction false} KeysAt(peers: seq<Peer>)
    ensures |Keys(peers)| == |peers|
    ensures forall i :: 0 <= i < |peers| ==> Keys(peers)[i] == KeyOf(peers[i])
  {
    if peers != [] { KeysAt(peers[1..]); }
  }

  lemma Associate<T>(a: seq<T>, b: seq<T>, c: seq<T>)
    ensures a + (b + c) == a + b + c
  {
  }

  lemma {:induction false} WithoutAppend(a: seq<Peer>, b: seq<Peer>, k: PeerKey)
    ensures Without(a + b, k) == Without(a, k) + Without(b, k)
  {
    if a == [] {
      assert a + b == b;
    } else {
      var rest, both := a[1..], a + b;
      WithoutAppend(rest, b, k);
      assert both[0] == a[0] && both[1..] == rest + b;
      Associate([a[0]], Without(rest, k), Without(b, k));
    }
  }

  lemma {:induction false} WithoutAbsent(peers: seq<Peer>, k: PeerKey)
    requires forall i :: 0 <= i < |peers| ==> KeyOf(peers[i]) != k
    ensures Without(peers, k) == peers
  {
    if peers != [] { WithoutAbsent(peers[1..], k); }
  }

  /** Removing the first match is removing all of them when keys are distinct. */
  lemma {:induction false} RemoveIsWithout(peers: seq<Peer>, k: PeerKey)
    requires Distinct(Keys(peers))
    ensures var pos := Position(peers, k);
      Without(peers, k) == if pos < |peers| then peers[..pos] + peers[pos + 1..] else peers
  {
    var pos := Position(peers, k);
    if pos < |peers| {
      var a, p, b := peers[..pos], peers[pos], peers[pos + 1..];
      assert peers == a + ([p] + b);
      WithoutAppend(a, [p] + b, k);
      WithoutAbsent(a, k);
      OnlyMatch(peers, k, b);
      WithoutAbsent(b, k);
      assert ([p] + b)[1..] == b;
    } else {
      WithoutAbsent(peers, k);
    }
  }

  lemma {:induction false} OnlyMatch(peers: seq<Peer>, k: PeerKey, rest: seq<Peer>)
    requires Distinct(Keys(peers)) && Position(peers, k) < |peers|
    requires rest == peers[Position(peers, k) + 1..]
    ensures forall i :: 0 <= i < |rest| ==> KeyOf(rest[i]) != k
  {
    KeysAt(peers);
    var pos := Position(peers, k);
    forall i | 0 <= i < |rest|
      ensures KeyOf(rest[i]) != k
    {
      assert Keys(peers)[pos] != Keys(peers)[pos + 1 + i];
    }
  }

  lemma {:induction false} WithoutMember(peers: seq<Peer>, k: PeerKey, p: Peer)
    ensures p in Without(peers, k) <==> p in peers && KeyOf(p) != k
  {
    if peers != [] { WithoutMember(peers[1..], k, p); }
  }

  lemma {:induction false} WithoutKeyMember(keys: seq<PeerKey>, k: PeerKey, x: PeerKey)
    ensures x in WithoutKey(keys, k) <==> x in keys && x != k
  {
    if keys != [] { WithoutKeyMember(keys[1..], k, x); }
  }

  lemma {:induction false} WithoutKeyDistinct(keys: seq<PeerKey>, k: PeerKey)
    requires Distinct(keys)
    ensures Distinct(WithoutKey(keys, k))
  {
    if keys != [] {
      assert Distinct(keys[1..]);
      WithoutKeyDistinct(keys[1..], k);
      WithoutKeyMember(keys[1..], k, keys[0]);
    }
  }

  lemma {:induction false} KeysWithout(peers: seq<Peer>, k: PeerKey)
    ensures Keys(Without(peers, k)) == WithoutKey(Keys(peers), k)
  {
    if peers != [] {
      KeysWithout(peers[1..], k);
      assert Keys(peers)[1..] == Keys(peers[1..]);
      if KeyOf(peers[0]) == k {
        assert Without(peers, k) == Without(peers[1..], k);
      } else {
        assert ([peers[0]] + Without(peers[1..], k))[1..] == Without(peers[1..], k);
      }
    }
  }

  lemma {:induction false} KeysAppend(a: seq<Peer>, b: seq<Peer>)
    ensures Keys(a + b) == Keys(a) + Keys(b)
  {
    if a == [] {
      assert a + b == b;
    } else {
      var rest, both := a[1..], a + b;
      KeysAppend(rest, b);
      assert both[0] == a[0] && both[1..] == rest + b;
      Associate([KeyOf(a[0])], Keys(rest), Keys(b));
    }
  }

  lemma {:induction false} OfflineMeaning(stored: seq<Peer>)
    ensures |Offline(stored)| == |stored| && Keys(Offline(stored)) == Keys(stored)
    ensures forall i :: 0 <= i < |stored| ==> Offline(stored)[i] == stored[i].(online := false)
  {
    if stored != [] { OfflineMeaning(stored[1..]); }
  }

  // ---------------------------------------------------------------- the loop computes it

  lemma AnsweredMore(before: seq<Peer>, last: Peer, k: PeerKey)
    ensures Answered(before + [last], k) <==> Answered(before, k) || KeyOf(last) == k
    ensures IdAnswered(before + [last], k.id) <==> IdAnswered(before, k.id) || last.id == k.id
  {
    var responses := before + [last];
    assert responses[|before|] == last;
    if Answered(before, k) {
      var i :| 0 <= i < |before| && KeyOf(before[i]) == k;
      assert KeyOf(responses[i]) == k;
    }
    if IdAnswered(before, k.id) {
      var i :| 0 <= i < |before| && before[i].id == k.id;
      assert responses[i].id == k.id;
    }
  }

  lemma Split(responses: seq<Peer>) returns (before: seq<Peer>, last: Peer)
    requires responses != []
    ensures before == responses[..|responses| - 1] && last == responses[|responses| - 1]
    ensures responses == before + [last]
  {
    before, last := responses[..|responses| - 1], responses[|responses| - 1];
  }

  lemma {:induction false} RecentFirstMeaning(responses: seq<Peer>)
    ensures Distinct(RecentFirst(responses))
    ensures forall k :: k in RecentFirst(responses) <==> Answered(responses, k)
  {
    if responses != [] {
      var before, last := Split(responses);
      var k := KeyOf(last);
      RecentFirstMeaning(before);
      WithoutKeyDistinct(RecentFirst(before), k);
      WithoutKeyMember(RecentFirst(before), k, k);
      forall x
        ensures x in RecentFirst(responses) <==> Answered(responses, x)
      {
        WithoutKeyMember(RecentFirst(before), k, x);
        AnsweredMore(before, last, x);
      }
    }
  }

  lemma {:induction false} EntryKey(stored: seq<Peer>, responses: seq<Peer>, k: PeerKey)
    requires Answered(responses, k)
    ensures KeyOf(Entry(stored, responses, k)) == k
  {
    var before, last := Split(responses);
    AnsweredMore(before, last, k);
    if KeyOf(last) != k { EntryKey(stored, before, k); }
  }

  lemma {:induction false} EntriesKeys(stored: seq<Peer>, responses: seq<Peer>, keys: seq<PeerKey>)
    requires forall k :: k in keys ==> Answered(responses, k)
    ensures Keys(Entries(stored, responses, keys)) == keys
  {
    if keys != [] {
      EntryKey(stored, responses, keys[0]);
      EntriesKeys(stored, responses, keys[1..]);
    }
  }

  lemma {:induction false} EntryMore(stored: seq<Peer>, before: seq<Peer>, last: Peer, k: PeerKey)
    requires Answered(before, k) && KeyOf(last) != k
    ensures Answered(before + [last], k) && Entry(stored, before + [last], k) == Entry(stored, before, k)
  {
    AnsweredMore(before, last, k);
    assert (before + [last])[..|before|] == before;
  }

  /** One more response leaves the entries of the other responders alone. */
  lemma {:induction false} EntriesMore(stored: seq<Peer>, before: seq<Peer>, last: Peer, keys: seq<PeerKey>)
    requires forall x :: x in keys ==> Answered(before, x)
    ensures forall x :: x in WithoutKey(keys, KeyOf(last)) ==> Answered(before + [last], x)
    ensures Without(Entries(stored, before, keys), KeyOf(last))
         == Entries(stored, before + [last], WithoutKey(keys, KeyOf(last)))
  {
    var k := KeyOf(last);
    if keys != [] {
      assert keys[0] in keys && forall x :: x in keys[1..] ==> x in keys;
      EntriesMore(stored, before, last, keys[1..]);
      EntryKey(stored, before, keys[0]);
      var rest := WithoutKey(keys[1..], k);
      var entries := Entries(stored, before, keys);
      assert entries[1..] == Entries(stored, before, keys[1..]);
      if keys[0] != k {
        EntryMore(stored, before, last, keys[0]);
        assert WithoutKey(keys, k) == [keys[0]] + rest && ([keys[0]] + rest)[1..] == rest;
      } else {
        assert WithoutKey(keys, k) == rest;
      }
    }
  }

  /** The responders known after `responses`, most recent first. */
  ghost function Responders(stored: seq<Peer>, responses: seq<Peer>): seq<Peer> {
    RecentFirstMeaning(responses);
    Entries(stored, responses, RecentFirst(responses))
  }

  lemma {:induction false} UnansweredMeaning(stored: seq<Peer>, responses: seq<Peer>)
    ensures forall p :: p in Unanswered(stored, responses) <==> p in Offline(stored) && !Answered(responses, KeyOf(p))
  {
    if responses != [] {
      var before, last := Split(responses);
      UnansweredMeaning(stored, before);
      forall p
        ensures p in Unanswered(stored, responses) <==> p in Offline(stored) && !Answered(responses, KeyOf(p))
      {
        WithoutMember(Unanswered(stored, before), KeyOf(last), p);
        AnsweredMore(before, last, KeyOf(p));
      }
    }
  }

  lemma {:induction false} EntriesMember(stored: seq<Peer>, responses: seq<Peer>, keys: seq<PeerKey>, p: Peer)
    requires forall x :: x in keys ==> Answered(responses, x)
    ensures p in Entries(stored, responses, keys) <==> KeyOf(p) in keys && p == Entry(stored, responses, KeyOf(p))
  {
    if keys != [] {
      EntryKey(stored, responses, keys[0]);
      assert keys[0] in keys && forall x :: x in keys[1..] ==> x in keys;
      EntriesMember(stored, responses, keys[1..], p);
    }
  }

  lemma {:induction false} ResponderIs(stored: seq<Peer>, responses: seq<Peer>, p: Peer)
    ensures p in Responders(stored, responses) <==>
            Answered(responses, KeyOf(p)) && p == Entry(stored, responses, KeyOf(p))
  {
    RecentFirstMeaning(responses);
    EntriesMember(stored, responses, RecentFirst(responses), p);
  }

  /** The list is what it should be: responders first, then the stored peers that did not answer. */
  ghost predicate Refines(stored: seq<Peer>, responses: seq<Peer>, s: State) {
    && s.peers == Responders(stored, responses) + Unanswered(stored, responses)
    && (forall id :: id in s.responseSet <==> IdAnswered(responses, id))
    && Distinct(Keys(s.peers))
  }

  lemma {:induction false} SameKeySamePeer(peers: seq<Peer>, i: nat, j: nat)
    requires Distinct(Keys(peers)) && i < |peers| && j < |peers| && KeyOf(peers[i]) == KeyOf(peers[j])
    ensures i == j
  {
    KeysAt(peers);
    assert Keys(peers)[i] == Keys(peers)[j];
  }

  /** A list with distinct keys holds one peer with the key of `p`, and finds it. */
  lemma {:induction false} PositionFinds(peers: seq<Peer>, p: Peer)
    requires Distinct(Keys(peers)) && p in peers
    ensures Position(peers, KeyOf(p)) < |peers| && peers[Position(peers, KeyOf(p))] == p
  {
    var i :| 0 <= i < |peers| && peers[i] == p;
    SameKeySamePeer(peers, i, Position(peers, KeyOf(p)));
  }

  lemma {:induction false} ListedIsStored(stored: seq<Peer>, responses: seq<Peer>, s: State, pos: nat)
    requires Refines(stored, responses, s) && pos < |s.peers| && !Answered(responses, KeyOf(s.peers[pos]))
    ensures Position(stored, KeyOf(s.peers[pos])) < |stored|
  {
    var p := s.peers[pos];
    assert p in Responders(stored, responses) || p in Unanswered(stored, responses);
    ResponderIs(stored, responses, p);
    UnansweredMeaning(stored, responses);
    OfflineMeaning(stored);
    var i :| 0 <= i < |stored| && Offline(stored)[i] == p;
    assert KeyOf(stored[i]) == KeyOf(p);
  }

  /** What the loop puts in front is the entry of the responder. */
  lemma {:induction false} FrontIsEntry(stored: seq<Peer>, before: seq<Peer>, last: Peer, s: State)
    requires Distinct(Keys(stored)) && Refines(stored, before, s)
    ensures Answered(before + [last], KeyOf(last))
    ensures Receive(s, last).peers[0] == Entry(stored, before + [last], KeyOf(last))
  {
    var k := KeyOf(last);
    AnsweredMore(before, last, k);
    assert (before + [last])[..|before|] == before;
    var pos := Position(s.peers, k);
    if Answered(before, k) {
      var e := Entry(stored, before, k);
      EntryKey(stored, before, k);
      ResponderIs(stored, before, e);
      PositionFinds(s.peers, e);
      var i :| 0 <= i < |before| && KeyOf(before[i]) == k;
      assert before[i].id == k.id;
    } else {
      OfflineMeaning(stored);
      UnansweredMeaning(stored, before);
      var at := Position(stored, k);
      if at < |stored| {
        assert Offline(stored)[at] in Offline(stored);
        PositionFinds(s.peers, Offline(stored)[at]);
      }
      if pos < |s.peers| { ListedIsStored(stored, before, s, pos); }
    }
  }

  /** Removing a key from the list leaves the entries of the others. */
  lemma {:induction false} RemovedRefines(stored: seq<Peer>, before: seq<Peer>, last: Peer, s: State)
    requires Distinct(Keys(stored)) && Refines(stored, before, s)
    ensures Answered(before + [last], KeyOf(last))
    ensures [Entry(stored, before + [last], KeyOf(last))] + Without(s.peers, KeyOf(last))
         == Responders(stored, before + [last]) + Unanswered(stored, before + [last])
  {
    var k, responses, recent := KeyOf(last), before + [last], RecentFirst(before);
    assert responses[..|before|] == before;
    AnsweredMore(before, last, k);
    RecentFirstMeaning(before);
    RecentFirstMeaning(responses);
    WithoutAppend(Responders(stored, before), Unanswered(stored, before), k);
    EntriesMore(stored, before, last, recent);
    var rest := WithoutKey(recent, k);
    assert RecentFirst(responses) == [k] + rest;
    assert ([k] + rest)[1..] == rest;
  }

  lemma {:induction false} MovedDistinct(peers: seq<Peer>, front: Peer, k: PeerKey)
    requires Distinct(Keys(peers)) && KeyOf(front) == k
    ensures Distinct(Keys([front] + Without(peers, k)))
  {
    KeysWithout(peers, k);
    WithoutKeyDistinct(Keys(peers), k);
    WithoutKeyMember(Keys(peers), k, k);
    assert ([front] + Without(peers, k))[1..] == Without(peers, k);
  }

  lemma IdsMore(before: seq<Peer>, last: Peer, ids: set<string>)
    requires forall id :: id in ids <==> IdAnswered(before, id)
    ensures forall id :: id in ids + {last.id} <==> IdAnswered(before + [last], id)
  {
    forall id
      ensures id in ids + {last.id} <==> IdAnswered(before + [last], id)
    {
      AnsweredMore(before, last, PeerKey(id, ""));
    }
  }

  /** The new list is the front entry and the others without its key. */
  lemma ReceiveMoves(s: State, last: Peer)
    requires Distinct(Keys(s.peers))
    ensures var t := Receive(s, last);
      t.peers != [] && KeyOf(t.peers[0]) == KeyOf(last) && t.peers == [t.peers[0]] + Without(s.peers, KeyOf(last))
  {
    RemoveIsWithout(s.peers, KeyOf(last));
  }

  lemma {:induction false} ReceiveRefines(stored: seq<Peer>, before: seq<Peer>, last: Peer, s: State)
    requires Distinct(Keys(stored)) && Refines(stored, before, s)
    ensures Refines(stored, before + [last], Receive(s, last))
  {
    FrontIsEntry(stored, before, last, s);
    ReceiveMoves(s, last);
    RemovedRefines(stored, before, last, s);
    MovedDistinct(s.peers, Receive(s, last).peers[0], KeyOf(last));
    IdsMore(before, last, s.responseSet);
  }

  /** Main result: for every list of stored peers with distinct keys and every sequence of
      responses, the list stored at the end is the responders, the most recent first, followed
      by the stored peers that did not answer. */
  lemma {:induction false} LoopRefines(stored: seq<Peer>, responses: seq<Peer>)
    requires Distinct(Keys(stored))
    ensures Refines(stored, responses, ReceiveAll(stored, responses))
  {
    if responses == [] {
      OfflineMeaning(stored);
      assert Responders(stored, []) == [];
    } else {
      var before, last := Split(responses);
      LoopRefines(stored, before);
      ReceiveRefines(stored, before, last, ReceiveAll(stored, before));
    }
  }

  // ---------------------------------------------------------------- what the list looks like

  /** The responders come first, in the order of their last response; the others keep their order. */
  lemma {:induction false} FinalOrder(stored: seq<Peer>, responses: seq<Peer>)
    requires Distinct(Keys(stored))
    ensures var final := ReceiveAll(stored, responses).peers;
      && Distinct(Keys(final))
      && Keys(final) == RecentFirst(responses) + Keys(Unanswered(stored, responses))
  {
    LoopRefines(stored, responses);
    RecentFirstMeaning(responses);
    EntriesKeys(stored, responses, RecentFirst(responses));
    KeysAppend(Responders(stored, responses), Unanswered(stored, responses));
  }

  function Later(at: seq<nat>): (later: seq<nat>)
    ensures |later| == |at| && forall i :: 0 <= i < |at| ==> later[i] == at[i] + 1
  {
    seq(|at|, i requires 0 <= i < |at| => at[i] + 1)
  }

  lemma {:induction false} WithoutInOrder(peers: seq<Peer>, k: PeerKey) returns (at: seq<nat>)
    ensures |at| == |Without(peers, k)| && InOrder(at, |peers|)
    ensures forall i :: 0 <= i < |at| ==> Without(peers, k)[i] == peers[at[i]]
  {
    if peers == [] {
      at := [];
    } else {
      var rest := WithoutInOrder(peers[1..], k);
      if KeyOf(peers[0]) == k {
        at := Later(rest);
      } else {
        at := [0] + Later(rest);
        FrontInOrder(rest, |peers| - 1);
      }
    }
  }

  lemma FrontInOrder(at: seq<nat>, n: nat)
    requires InOrder(at, n)
    ensures InOrder([0] + Later(at), n + 1)
  {
  }

  /** Positions in a list, from front to back. */
  ghost predicate InOrder(at: seq<nat>, n: nat) {
    && (forall i :: 0 <= i < |at| ==> at[i] < n)
    && (forall i, j :: 0 <= i < j < |at| ==> at[i] < at[j])
  }

  /** `peers` are the stored peers at these positions, from front to back, offline. */
  ghost predicate OfflineAt(stored: seq<Peer>, at: seq<nat>, peers: seq<Peer>) {
    && InOrder(at, |stored|) && |peers| == |at|
    && forall i :: 0 <= i < |at| ==> peers[i] == stored[at[i]].(online := false)
  }

  lemma {:induction false} UnansweredInOrder(stored: seq<Peer>, responses: seq<Peer>) returns (at: seq<nat>)
    ensures OfflineAt(stored, at, Unanswered(stored, responses))
  {
    OfflineMeaning(stored);
    if responses == [] {
      at := seq(|stored|, i => i);
    } else {
      var before, last := Split(responses);
      var all := UnansweredInOrder(stored, before);
      var kept := WithoutInOrder(Unanswered(stored, before), KeyOf(last));
      at := seq(|kept|, i requires 0 <= i < |kept| => all[kept[i]]);
    }
  }

  /** After the responders, the final list has exactly the stored peers that did not answer, offline
      and in their old order. */
  lemma OldOrder(stored: seq<Peer>, responses: seq<Peer>) returns (at: seq<nat>)
    requires Distinct(Keys(stored))
    ensures var final, n := ReceiveAll(stored, responses).peers, |RecentFirst(responses)|;
      n <= |final| && OfflineAt(stored, at, final[n..])
    ensures forall j :: 0 <= j < |stored| ==> (j in at <==> !Answered(responses, KeyOf(stored[j])))
  {
    at := UnansweredInOrder(stored, responses);
    AfterResponders(stored, responses);
    forall j | 0 <= j < |stored|
      ensures j in at <==> !Answered(responses, KeyOf(stored[j]))
    {
      Covered(stored, responses, at, j);
    }
  }

  lemma {:induction false} AfterResponders(stored: seq<Peer>, responses: seq<Peer>)
    requires Distinct(Keys(stored))
    ensures var final, n := ReceiveAll(stored, responses).peers, |RecentFirst(responses)|;
      n <= |final| && final[n..] == Unanswered(stored, responses)
  {
    LoopRefines(stored, responses);
    RespondersCount(stored, responses);
  }

  lemma {:induction false} RespondersCount(stored: seq<Peer>, responses: seq<Peer>)
    ensures |Responders(stored, responses)| == |RecentFirst(responses)|
  {
    RecentFirstMeaning(responses);
    EntriesKeys(stored, responses, RecentFirst(responses));
    KeysAt(Responders(stored, responses));
  }

  lemma {:induction false} Covered(stored: seq<Peer>, responses: seq<Peer>, at: seq<nat>, j: nat)
    requires Distinct(Keys(stored)) && j < |stored| && OfflineAt(stored, at, Unanswered(stored, responses))
    ensures j in at <==> !Answered(responses, KeyOf(stored[j]))
  {
    var p := stored[j].(online := false);
    OfflineMeaning(stored);
    assert Offline(stored)[j] == p;
    UnansweredMeaning(stored, responses);
    assert p in Unanswered(stored, responses) <==> !Answered(responses, KeyOf(stored[j]));
    if p in Unanswered(stored, responses) {
      var i :| 0 <= i < |at| && Unanswered(stored, responses)[i] == p;
      SameKeySamePeer(stored, at[i], j);
    }
    if j in at {
      var i :| 0 <= i < |at| && at[i] == j;
      assert Unanswered(stored, responses)[i] == p;
    }
  }

  /** Where an entry is after a response; the front entry replaces the one at `pos`. */
  function Moved(s: State, response: Peer, i: nat): nat {
    var pos := Position(s.peers, KeyOf(response));
    if i == pos < |s.peers| then 0 else if pos < i && pos < |s.peers| then i else i + 1
  }

  lemma MovedKey(s: State, response: Peer, i: nat)
    requires i < |s.peers|
    ensures var t, at := Receive(s, response).peers, Moved(s, response, i);
      at < |t| && KeyOf(t[at]) == KeyOf(s.peers[i])
  {
  }

  lemma DuplicateStays(s: State, response: Peer)
    requires !Distinct(Keys(s.peers))
    ensures !Distinct(Keys(Receive(s, response).peers))
  {
    KeysAt(s.peers);
    var i, j :| 0 <= i < j < |s.peers| && Keys(s.peers)[i] == Keys(s.peers)[j];
    var keys := Keys(Receive(s, response).peers);
    KeysAt(Receive(s, response).peers);
    MovedKey(s, response, i);
    MovedKey(s, response, j);
    assert keys[Moved(s, response, i)] == keys[Moved(s, response, j)];
  }

  /** No peer is listed twice, whatever answers, exactly if none was stored twice. */
  lemma {:induction false} DistinctExactly(stored: seq<Peer>, responses: seq<Peer>)
    ensures Distinct(Keys(ReceiveAll(stored, responses).peers)) <==> Distinct(Keys(stored))
  {
    if Distinct(Keys(stored)) {
      FinalOrder(stored, responses);
    } else if responses == [] {
      OfflineMeaning(stored);
    } else {
      DistinctExactly(stored, responses[..|responses| - 1]);
      DuplicateStays(ReceiveAll(stored, responses[..|responses| - 1]), responses[|responses| - 1]);
    }
  }

  /** The stored list after several rounds, from an empty file. */
  function Rounds(rounds: seq<seq<Peer>>): seq<Peer> {
    if rounds == [] then [] else ReceiveAll(Rounds(rounds[..|rounds| - 1]), rounds[|rounds| - 1]).peers
  }

  /** So every round starts from distinct peers. */
  lemma {:induction false} RoundsDistinct(rounds: seq<seq<Peer>>)
    ensures Distinct(Keys(Rounds(rounds)))
  {
    if rounds != [] {
      RoundsDistinct(rounds[..|rounds| - 1]);
      DistinctExactly(Rounds(rounds[..|rounds| - 1]), rounds[|rounds| - 1]);
    }
  }

  /** Responder i comes before responder j exactly because its last response is later. */
  lemma {:induction false} MostRecentFirst(responses: seq<Peer>, i: nat, j: nat)
    requires i < j < |RecentFirst(responses)|
    ensures LastResponse(responses, RecentFirst(responses)[i]) > LastResponse(responses, RecentFirst(responses)[j])
    decreases |responses|, 1
  {
    var before, last := Split(responses);
    var rest := WithoutKey(RecentFirst(before), KeyOf(last));
    assert RecentFirst(responses) == [KeyOf(last)] + rest;
    OthersEarlier(before, last, rest[j - 1]);
    if i > 0 { OthersInOrder(before, last, i - 1, j - 1); }
  }

  lemma {:induction false} OthersInOrder(before: seq<Peer>, last: Peer, i: nat, j: nat)
    requires i < j < |WithoutKey(RecentFirst(before), KeyOf(last))|
    ensures var rest := WithoutKey(RecentFirst(before), KeyOf(last));
      LastResponse(before + [last], rest[i]) > LastResponse(before + [last], rest[j])
    decreases |before| + 1, 0
  {
    var rest := WithoutKey(RecentFirst(before), KeyOf(last));
    var a, b := WithoutKeyOrder(RecentFirst(before), KeyOf(last), i, j);
    MostRecentFirst(before, a, b);
    OthersEarlier(before, last, rest[i]);
    OthersEarlier(before, last, rest[j]);
  }

  lemma {:induction false} OthersEarlier(before: seq<Peer>, last: Peer, other: PeerKey)
    requires other in WithoutKey(RecentFirst(before), KeyOf(last))
    ensures LastResponse(before + [last], other) == LastResponse(before, other)
    ensures LastResponse(before, other) < LastResponse(before + [last], KeyOf(last))
  {
    WithoutKeyMember(RecentFirst(before), KeyOf(last), other);
    LastResponseBound(before, other);
    assert (before + [last])[..|before|] == before;
  }

  /** Index of the last response with this key, -1 if there is none. */
  function LastResponse(responses: seq<Peer>, k: PeerKey): int {
    if responses == [] then -1
    else if KeyOf(responses[|responses| - 1]) == k then |responses| - 1
    else LastResponse(responses[..|responses| - 1], k)
  }

  lemma {:induction false} LastResponseBound(responses: seq<Peer>, k: PeerKey)
    ensures LastResponse(responses, k) < |responses|
  {
    if responses != [] { LastResponseBound(responses[..|responses| - 1], k); }
  }

  lemma {:induction false} WithoutKeyOrder(keys: seq<PeerKey>, k: PeerKey, i: nat, j: nat) returns (a: nat, b: nat)
    requires i < j < |WithoutKey(keys, k)|
    ensures a < b < |keys| && keys[a] == WithoutKey(keys, k)[i] && keys[b] == WithoutKey(keys, k)[j]
  {
    var rest := WithoutKey(keys[1..], k);
    if keys[0] == k {
      a, b := WithoutKeyOrder(keys[1..], k, i, j);
      a, b := a + 1, b + 1;
    } else if i > 0 {
      a, b := WithoutKeyOrder(keys[1..], k, i - 1, j - 1);
      a, b := a + 1, b + 1;
    } else {
      WithoutKeyMember(keys[1..], k, rest[j - 1]);
      var c: nat :| c < |keys[1..]| && keys[1..][c] == rest[j - 1];
      a, b := 0, c + 1;
    }
  }

  /** Responders are online, with what they last said of themselves; the others are as stored, offline. */
  lemma {:induction false} FinalPeers(stored: seq<Peer>, responses: seq<Peer>, p: Peer)
    requires Distinct(Keys(stored)) && p in ReceiveAll(stored, responses).peers
    requires forall i :: 0 <= i < |responses| ==> responses[i].online
    ensures p.online <==> Answered(responses, KeyOf(p))
    ensures Answered(responses, KeyOf(p)) ==>
      var i := LastResponse(responses, KeyOf(p));
      0 <= i < |responses| && p == responses[i].(ipMac := p.ipMac)
    ensures !Answered(responses, KeyOf(p)) ==> exists q :: q in stored && p == q.(online := false)
  {
    LoopRefines(stored, responses);
    ResponderIs(stored, responses, p);
    UnansweredMeaning(stored, responses);
    if Answered(responses, KeyOf(p)) {
      EntryFields(stored, responses, KeyOf(p));
    } else {
      OfflineMeaning(stored);
      var i :| 0 <= i < |stored| && Offline(stored)[i] == p;
      assert stored[i] in stored;
    }
  }

  lemma {:induction false} EntryFields(stored: seq<Peer>, responses: seq<Peer>, k: PeerKey)
    requires Answered(responses, k) && forall i :: 0 <= i < |responses| ==> responses[i].online
    ensures var i := LastResponse(responses, k);
      0 <= i < |responses| && Entry(stored, responses, k) == responses[i].(ipMac := Entry(stored, responses, k).ipMac)
  {
    var before, last := Split(responses);
    AnsweredMore(before, last, k);
    if KeyOf(last) != k { EntryFields(stored, before, k); }
  }

  // ---------------------------------------------------------------- addresses

  /** All addresses a peer answered from this round; the first answer from an address wins. */
  ghost function Addresses(responses: seq<Peer>, k: PeerKey): map<string, string> {
    if responses == [] then map[]
    else
      var before, last := responses[..|responses| - 1], responses[|responses| - 1];
      (if KeyOf(last) == k then last.ipMac else map[]) + Addresses(before, k)
  }

  /** The id of `k` had been answered, under another user name, before `k` first answered. */
  ghost predicate SeenBefore(responses: seq<Peer>, k: PeerKey) {
    IdAnswered(responses[..Position(responses, k)], k.id)
  }

  /** The addresses stored in earlier rounds that get into this one. */
  ghost function Stale(stored: seq<Peer>, responses: seq<Peer>, k: PeerKey): map<string, string> {
    var pos := Position(stored, k);
    if pos < |stored| && SeenBefore(responses, k) then stored[pos].ipMac else map[]
  }

  /** The first response of a key, with one more response. */
  lemma {:induction false} FirstMore(before: seq<Peer>, last: Peer, k: PeerKey)
    requires Answered(before + [last], k)
    ensures Answered(before, k) ==>
              && Position(before + [last], k) == Position(before, k)
              && SeenBefore(before + [last], k) == SeenBefore(before, k)
    ensures !Answered(before, k) ==>
              Position(before + [last], k) == |before| && SeenBefore(before + [last], k) == IdAnswered(before, k.id)
  {
    AnsweredMore(before, last, k);
    var responses, n := before + [last], Position(before + [last], k);
    var i :| 0 <= i < |responses| && KeyOf(responses[i]) == k;
    if Answered(before, k) {
      var j :| 0 <= j < |before| && KeyOf(before[j]) == k;
      assert KeyOf(responses[j]) == k && responses[Position(before, k)] == before[Position(before, k)];
      assert n == Position(before, k) && responses[..n] == before[..n];
    } else {
      assert n == |before| && responses[..n] == before;
    }
  }

  /** Exactly which addresses an entry has: all of this round, and the stale ones over them. */
  lemma {:induction false} EntryAddresses(stored: seq<Peer>, responses: seq<Peer>, k: PeerKey)
    requires Answered(responses, k)
    ensures Entry(stored, responses, k).ipMac == Addresses(responses, k) + Stale(stored, responses, k)
  {
    var before, last := Split(responses);
    AnsweredMore(before, last, k);
    if Answered(before, k) {
      EntryAddresses(stored, before, k);
      AnsweredAgain(stored, before, last, k);
    } else {
      AnsweredFirst(stored, before, last, k);
    }
  }

  lemma {:induction false} AnsweredAgain(stored: seq<Peer>, before: seq<Peer>, last: Peer, k: PeerKey)
    requires Answered(before, k)
    requires Entry(stored, before, k).ipMac == Addresses(before, k) + Stale(stored, before, k)
    ensures Answered(before + [last], k)
    ensures Entry(stored, before + [last], k).ipMac
         == Addresses(before + [last], k) + Stale(stored, before + [last], k)
  {
    AnsweredMore(before, last, k);
    FirstMore(before, last, k);
    assert (before + [last])[..|before|] == before;
    var own := if KeyOf(last) == k then last.ipMac else map[];
    MapAssociate(own, Addresses(before, k), Stale(stored, before, k));
    MapAssociate(Addresses(before, k), map[], map[]);
  }

  lemma {:induction false} AnsweredFirst(stored: seq<Peer>, before: seq<Peer>, last: Peer, k: PeerKey)
    requires !Answered(before, k) && KeyOf(last) == k
    ensures Answered(before + [last], k)
    ensures Entry(stored, before + [last], k).ipMac
         == Addresses(before + [last], k) + Stale(stored, before + [last], k)
  {
    AnsweredMore(before, last, k);
    FirstMore(before, last, k);
    assert (before + [last])[..|before|] == before;
    NoAddresses(before, k);
    assert last.ipMac + map[] == last.ipMac;
  }

  lemma MapAssociate<K, V>(a: map<K, V>, b: map<K, V>, c: map<K, V>)
    ensures a + (b + c) == a + b + c && map[] + a == a
  {
  }

  lemma {:induction false} NoAddresses(responses: seq<Peer>, k: PeerKey)
    requires !Answered(responses, k)
    ensures Addresses(responses, k) == map[]
  {
    if responses != [] {
      var before, last := Split(responses);
      AnsweredMore(before, last, k);
      NoAddresses(before, k);
    }
  }

  lemma {:induction false} AddressesContain(responses: seq<Peer>, k: PeerKey, i: nat)
    requires i < |responses| && KeyOf(responses[i]) == k
    ensures responses[i].ipMac.Keys <= Addresses(responses, k).Keys
  {
    if i < |responses| - 1 { AddressesContain(responses[..|responses| - 1], k, i); }
  }

  /** The addresses with which a responder is listed in the end. */
  lemma {:induction false} ListedAddresses(stored: seq<Peer>, responses: seq<Peer>, p: Peer)
    requires Distinct(Keys(stored)) && p in ReceiveAll(stored, responses).peers && Answered(responses, KeyOf(p))
    ensures p.ipMac == Addresses(responses, KeyOf(p)) + Stale(stored, responses, KeyOf(p))
  {
    LoopRefines(stored, responses);
    ResponderIs(stored, responses, p);
    UnansweredMeaning(stored, responses);
    EntryAddresses(stored, responses, KeyOf(p));
  }

  /** A responder is online if its last answer says so, if it answered twice, or if it was stored and
      its id had been answered when it first did. */
  lemma {:induction false} EntryOnline(stored: seq<Peer>, responses: seq<Peer>, k: PeerKey)
    requires Answered(responses, k)
    ensures var first, i := Position(responses, k), LastResponse(responses, k);
      && 0 <= first <= i < |responses|
      && (Entry(stored, responses, k).online <==>
          responses[i].online || first < i || (Position(stored, k) < |stored| && SeenBefore(responses, k)))
  {
    var before, last := Split(responses);
    AnsweredMore(before, last, k);
    FirstMore(before, last, k);
    if Answered(before, k) { EntryOnline(stored, before, k); }
  }

  /** Two entries are the same peer exactly if both id and user name agree. */
  lemma SamePeer(p: Peer, q: Peer)
    ensures KeyOf(p) == KeyOf(q) <==> p.id == q.id && p.username == q.username
  {
  }

  /** Every responder is listed with every address it answered from this round. */
  lemma {:induction false} FinalAddresses(stored: seq<Peer>, responses: seq<Peer>, p: Peer, i: nat)
    requires Distinct(Keys(stored)) && p in ReceiveAll(stored, responses).peers
    requires i < |responses| && KeyOf(responses[i]) == KeyOf(p)
    ensures responses[i].ipMac.Keys <= p.ipMac.Keys
  {
    ListedAddresses(stored, responses, p);
    AddressesContain(responses, KeyOf(p), i);
  }

  /** Whatever was stored, `k` is listed with the addresses of this round and no others. */
  ghost predicate OnlyThisRound(responses: seq<Peer>, k: PeerKey) {
    forall stored, p | Distinct(Keys(stored)) && p in ReceiveAll(stored, responses).peers && KeyOf(p) == k ::
      p.ipMac == Addresses(responses, k)
  }

  /** A stored address that this round did not confirm. */
  lemma Unconfirmed(addresses: map<string, string>) returns (ipMac: map<string, string>)
    ensures addresses + ipMac != addresses
  {
    var mac := if "" in addresses then addresses[""] + "x" else "x";
    ipMac := map["" := mac];
    assert (addresses + ipMac)[""] == mac;
    if "" in addresses { assert |mac| != |addresses[""]|; }
  }

  lemma StaleListed(responses: seq<Peer>, k: PeerKey) returns (stored: seq<Peer>, p: Peer)
    requires Answered(responses, k) && SeenBefore(responses, k)
    ensures Distinct(Keys(stored)) && p in ReceiveAll(stored, responses).peers && KeyOf(p) == k
    ensures p.ipMac != Addresses(responses, k)
  {
    var ipMac := Unconfirmed(Addresses(responses, k));
    stored := [Peer(k.id, k.username, "", "", false, ipMac)];
    KeysAt(stored);
    p := Entry(stored, responses, k);
    EntryKey(stored, responses, k);
    LoopRefines(stored, responses);
    ResponderIs(stored, responses, p);
    EntryAddresses(stored, responses, k);
  }

  /** A responder is always listed with just the addresses of this round exactly if its id had not
      been answered, under another user name, when it first answered. */
  lemma OnlyThisRoundExactly(responses: seq<Peer>, k: PeerKey)
    requires Answered(responses, k)
    ensures OnlyThisRound(responses, k) <==> !SeenBefore(responses, k)
  {
    if SeenBefore(responses, k) {
      var stored, p := StaleListed(responses, k);
    } else {
      forall stored, p | Distinct(Keys(stored)) && p in ReceiveAll(stored, responses).peers && KeyOf(p) == k
        ensures p.ipMac == Addresses(responses, k)
      {
        ListedAddresses(stored, responses, p);
        assert Addresses(responses, k) + map[] == Addresses(responses, k);
      }
    }
  }

  /** In particular if the id always comes with one user name. */
  lemma OneUserOnly(responses: seq<Peer>, k: PeerKey)
    requires Answered(responses, k)
    requires forall i :: 0 <= i < |responses| && responses[i].id == k.id ==> responses[i].username == k.username
    ensures OnlyThisRound(responses, k)
  {
    var n := Position(responses, k);
    forall i | 0 <= i < n
      ensures responses[..n][i].id != k.id
    {
      assert KeyOf(responses[i]) != k;
    }
    OnlyThisRoundExactly(responses, k);
  }

  /** Two users of one machine: the second to answer is listed with an address of an earlier round. */
  lemma StaleAddressKept()
    ensures var stored := [Peer("7", "eve", "h", "p", true, map["10.0.0.9" := "aa"])];
      var adam := Peer("7", "adam", "h", "p", true, map["10.0.0.1" := "bb"]);
      var eve := Peer("7", "eve", "h", "p", true, map["10.0.0.1" := "bb"]);
      var final := ReceiveAll(stored, [adam, eve]).peers;
      && |final| == 2 && KeyOf(final[0]) == KeyOf(eve)
      && final[0].ipMac == map["10.0.0.1" := "bb", "10.0.0.9" := "aa"]
  {
    var known := Peer("7", "eve", "h", "p", true, map["10.0.0.9" := "aa"]);
    var adam := Peer("7", "adam", "h", "p", true, map["10.0.0.1" := "bb"]);
    var eve := Peer("7", "eve", "h", "p", true, map["10.0.0.1" := "bb"]);
    var off := known.(online := false);
    assert adam.username[0] != eve.username[0];
    assert [known][1..] == [] && Offline([known]) == [off];
    assert [adam, eve][..1] == [adam] && [adam][..0] == [];
    assert Position([off][1..], KeyOf(adam)) == 0;
    assert [adam] + [off] == [adam, off];
    assert ReceiveAll([known], [adam]) == State([adam, off], {} + {"7"});
    assert Position([adam, off], KeyOf(eve)) == 1;
    assert [adam, off][..1] == [adam] && [adam, off][2..] == [];
  }
}
