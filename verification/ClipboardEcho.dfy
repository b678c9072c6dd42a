/** Echo suppression of src/clipboard.rs: content that arrives from the peer is marked with its
    owner when it is put on the clipboard, and marked content is never sent.  Two machines, the
    controlled host and the controlling client, exchange messages over ordered channels. */
module ClipboardEcho {
  import opened Common

  datatype ClipboardData =
    | Text(text: string)
    | Special(name: string, bytes: seq<Byte>)
    | Rich(format: nat, content: seq<Byte>)

  type Content = seq<ClipboardData>

  datatype Side = Host | Client

  const OWNER_FORMAT := "dyn.com.hoptodesk.owner"

  function OwnerData(side: Side): seq<Byte> {
    match side
    case Host => [1]
    case Client => [2]
  }

  /** Either mark makes the content one of ours, whichever side asks. */
  predicate IsOwner(data: seq<Byte>) { |data| > 0 && data[0] % 4 != 0 }

  predicate IsMark(c: ClipboardData) { c.Special? && c.name == OWNER_FORMAT && IsOwner(c.bytes) }

  predicate Marked(content: Content) { exists i :: 0 <= i < |content| && IsMark(content[i]) }

  predicate Kept(c: ClipboardData) {
    match c
    case Special(name, _) => name != OWNER_FORMAT
    case Text(text) => text != ""
    case Rich(_, _) => true
  }

  function Filter(content: Content): Content {
    if content == [] then []
    else
      var before, last := content[..|content| - 1], content[|content| - 1];
      if Kept(last) then Filter(before) + [last] else Filter(before)
  }

  /** The content to synchronise, empty if there is none. */
  function Fetched(content: Content, force: bool): Content {
    if !force && Marked(content) then [] else Filter(content)
  }

  /** `check_clipboard`: the message to send, if any. */
  function Check(content: Content, force: bool): Option<Content> {
    if Fetched(content, force) == [] then None else Some(Fetched(content, force))
  }

  /** `do_update_clipboard_`: what a received message leaves on the clipboard. */
  function Update(content: Content, received: Content, side: Side): Content {
    if received == [] then content else received + [Special(OWNER_FORMAT, OwnerData(side))]
  }

  /** `at` lists in order the positions of the entries that survive, which are `kept`. */
  ghost predicate Listed(content: Content, kept: Content, at: seq<nat>) {
    && Places(content, kept, at)
    && Complete(content, at)
  }

  ghost predicate Places(content: Content, kept: Content, at: seq<nat>) {
    && |at| == |kept|
    && (forall j, k :: 0 <= j < k < |at| ==> at[j] < at[k])
    && (forall k :: 0 <= k < |at| ==> at[k] < |content| && kept[k] == content[at[k]])
  }

  ghost predicate Complete(content: Content, at: seq<nat>) {
    forall i: nat :: i < |content| ==> (i in at <==> Kept(content[i]))
  }

  lemma PlacesMore(content: Content, kept: Content, at: seq<nat>, c: ClipboardData)
    requires Places(content, kept, at)
    ensures Places(content + [c], kept, at) && Places(content + [c], kept + [c], at + [|content|])
  {
  }

  lemma CompleteMore(content: Content, at: seq<nat>, c: ClipboardData)
    requires Complete(content, at) && forall k :: 0 <= k < |at| ==> at[k] < |content|
    ensures Complete(content + [c], if Kept(c) then at + [|content|] else at)
  {
    var n := |content|;
    assert n !in at;
    forall i: nat | i < n + 1
      ensures i in at + [n] <==> i in at || i == n
    {
    }
  }

  lemma {:induction false} AllListed(content: Content) returns (at: seq<nat>)
    ensures Listed(content, Filter(content), at)
  {
    if content == [] {
      at := [];
    } else {
      var before, last := content[..|content| - 1], content[|content| - 1];
      var earlier := AllListed(before);
      PlacesMore(before, Filter(before), earlier, last);
      CompleteMore(before, earlier, last);
      assert content == before + [last];
      at := if Kept(last) then earlier + [|before|] else earlier;
    }
  }

  /** What is synchronised, in order: entry `at[k]` of the content is the k-th to survive, and all do
      but empty texts and the owner's format. */
  lemma FilterMeaning(content: Content) returns (at: seq<nat>)
    ensures |at| == |Filter(content)|
    ensures forall j, k :: 0 <= j < k < |at| ==> at[j] < at[k]
    ensures forall k :: 0 <= k < |at| ==> at[k] < |content| && Filter(content)[k] == content[at[k]]
    ensures forall i: nat :: i < |content| ==>
              var c := content[i];
              (i in at <==> !(c.Text? && c.text == "") && !(c.Special? && c.name == "dyn.com.hoptodesk.owner"))
  {
    at := AllListed(content);
  }

  /** An entry names an owner by the two low bits of its first byte, which are 1 for the host's mark
      and 2 for the client's. */
  lemma MarkMeaning(c: ClipboardData)
    ensures IsMark(c) <==> c.Special? && c.name == "dyn.com.hoptodesk.owner" && c.bytes != [] && c.bytes[0] % 4 > 0
  {
  }

  /** When something is sent: some entry is neither an empty text nor the owner's, and, unless the
      sending is forced, no entry names an owner.  What is sent is what `FilterMeaning` describes. */
  lemma {:induction false} SendMeaning(content: Content, force: bool)
    ensures Check(content, force).Some? <==>
            && (force || forall c :: c in content && c.Special? && c.name == "dyn.com.hoptodesk.owner" ==>
                                       c.bytes == [] || c.bytes[0] % 4 == 0)
            && (exists c :: c in content && (c.Rich? || (c.Text? && c.text != "") ||
                                             (c.Special? && c.name != "dyn.com.hoptodesk.owner")))
    ensures Check(content, force).Some? ==> Check(content, force).value == Filter(content)
  {
    var at := FilterMeaning(content);
    if Filter(content) != [] { assert Kept(content[at[0]]) && content[at[0]] in content; }
    if c :| c in content && Kept(c) {
      var i: nat :| i < |content| && content[i] == c;
      assert i in at;
    }
    if Marked(content) {
      var i :| 0 <= i < |content| && IsMark(content[i]);
      assert content[i] in content;
    }
  }

  /** What a message leaves: its entries and one that names the side it arrived on. */
  lemma UpdateMeaning(content: Content, received: Content)
    ensures Update(content, [], Host) == Update(content, [], Client) == content
    ensures received != [] ==>
              && Update(content, received, Host) == received + [Special("dyn.com.hoptodesk.owner", [1])]
              && Update(content, received, Client) == received + [Special("dyn.com.hoptodesk.owner", [2])]
  {
  }

  // ---------------------------------------------------------------- one machine, in place

  class ClipboardContext {
    var content: Content
    var lastSent: Content // the cached message

    constructor ()
      ensures content == [] && lastSent == []
    {
      content, lastSent := [], [];
    }

    method GetFormatsFilter(force: bool) returns (data: Content)
      ensures data == Fetched(content, force)
    {
      data := content;
      if !force {
        for i := 0 to |data|
          invariant forall k :: 0 <= k < i ==> !IsMark(data[k])
        {
          if IsMark(data[i]) {
            return [];
          }
        }
      }
      data := Filter(data);
    }

    method CheckClipboard(force: bool) returns (message: Option<Content>)
      modifies `lastSent
      ensures message == Check(content, force)
      ensures lastSent == if message.Some? then message.value else old(lastSent)
    {
      var data := GetFormatsFilter(force);
      if data != [] {
        lastSent := data;
        return Some(data);
      }
      return None;
    }

    method UpdateClipboard(received: Content, side: Side)
      modifies `content
      ensures content == Update(old(content), received, side)
      ensures if received == [] then content == old(content) else received < content && Check(content, false) == None
    {
      if received == [] {
        return;
      }
      content := received + [Special(OWNER_FORMAT, OwnerData(side))];
      UpdateUnsendable(old(content), received, side);
    }
  }

  // ---------------------------------------------------------------- two machines

  datatype Event =
    | UserCopy(side: Side, content: Content)
    | Notify(side: Side)  // the clipboard listener of that machine fires
    | Deliver(side: Side) // the oldest message on its way to that machine arrives

  datatype Machine = Machine(content: Content, inbox: seq<Content>, sent: seq<Content>)

  datatype World = World(host: Machine, client: Machine)

  function Other(side: Side): Side { if side == Host then Client else Host }

  function At(w: World, side: Side): Machine { if side == Host then w.host else w.client }

  function With(w: World, side: Side, m: Machine): World {
    if side == Host then w.(host := m) else w.(client := m)
  }

  const EMPTY := World(Machine([], [], []), Machine([], [], []))

  /** `decode` is whatever conversion to protobuf and back does to content. */
  type Decode = Content -> Content

  function Send(w: World, side: Side, message: Content): World {
    var me := At(w, side).(sent := At(w, side).sent + [message]);
    var peer := At(w, Other(side)).(inbox := At(w, Other(side)).inbox + [message]);
    With(With(w, side, me), Other(side), peer)
  }

  function Step(decode: Decode, w: World, e: Event): World {
    var m := At(w, e.side);
    match e
    case UserCopy(side, content) => With(w, side, m.(content := content))
    case Notify(side) => if Check(m.content, false).Some? then Send(w, side, Check(m.content, false).value) else w
    case Deliver(side) =>
      if m.inbox == [] then w
      else With(w, side, m.(content := Update(m.content, decode(m.inbox[0]), side), inbox := m.inbox[1..]))
  }

  function Run(decode: Decode, events: seq<Event>): World {
    if events == [] then EMPTY else Step(decode, Run(decode, events[..|events| - 1]), events[|events| - 1])
  }

  // ---------------------------------------------------------------- nothing is echoed

  /** The content of a machine is what event `i`, a copy by its own user, put there. */
  ghost predicate CopiedAt(decode: Decode, events: seq<Event>, side: Side, i: nat) {
    i < |events| && events[i] == UserCopy(side, At(Run(decode, events), side).content)
  }

  /** Content is unsendable, or it was copied by the user of that very machine. */
  ghost predicate OwnOrUnsendable(decode: Decode, events: seq<Event>, side: Side) {
    Check(At(Run(decode, events), side).content, false).Some? ==> exists i :: CopiedAt(decode, events, side, i)
  }

  /** A message is the filtered content of a copy by the user of the sender's machine. */
  ghost predicate FromOwnUser(events: seq<Event>, side: Side, message: Content) {
    exists i :: 0 <= i < |events| && CopyOf(events[i], side, message)
  }

  ghost predicate CopyOf(e: Event, side: Side, message: Content) {
    e.UserCopy? && e.side == side && !Marked(e.content) && message == Filter(e.content)
  }

  lemma UpdateUnsendable(content: Content, received: Content, side: Side)
    requires received != []
    ensures Marked(Update(content, received, side)) && Check(Update(content, received, side), false) == None
  {
    assert IsMark(Update(content, received, side)[|received|]);
  }

  lemma {:induction false} ContentIsOwn(decode: Decode, events: seq<Event>, side: Side)
    ensures OwnOrUnsendable(decode, events, side)
  {
    if events != [] {
      var before, e := events[..|events| - 1], events[|events| - 1];
      var content := At(Run(decode, events), side).content;
      ContentIsOwn(decode, before, side);
      if e == UserCopy(side, content) {
        assert CopiedAt(decode, events, side, |before|);
      } else if content == At(Run(decode, before), side).content {
        if i :| CopiedAt(decode, before, side, i) {
          assert CopiedAt(decode, events, side, i);
        }
      } else {
        var m := At(Run(decode, before), side);
        UpdateUnsendable(m.content, decode(m.inbox[0]), side);
      }
    }
  }

  /** In every run, whatever the conversion does to content, every message a machine ever sent is
      an unmarked copy made by its own user: nothing that arrived is sent back. */
  lemma {:induction false} NothingEchoed(decode: Decode, events: seq<Event>, side: Side, n: nat)
    requires n < |At(Run(decode, events), side).sent|
    ensures FromOwnUser(events, side, At(Run(decode, events), side).sent[n])
  {
    var before, e := events[..|events| - 1], events[|events| - 1];
    var m := At(Run(decode, before), side);
    if n < |m.sent| {
      NothingEchoed(decode, before, side, n);
      var i :| 0 <= i < |before| && CopyOf(before[i], side, m.sent[n]);
      assert CopyOf(events[i], side, m.sent[n]);
    } else {
      ContentIsOwn(decode, before, side);
      var i: nat :| CopiedAt(decode, before, side, i);
      assert CopyOf(events[i], side, At(Run(decode, events), side).sent[n]);
    }
  }

  /** So a side whose user copies nothing never sends, however often its listener fires: one copy
      on the other side cannot bounce. */
  lemma {:induction false} NoPingPong(decode: Decode, events: seq<Event>, side: Side)
    requires forall i :: 0 <= i < |events| ==> !(events[i].UserCopy? && events[i].side == side)
    ensures At(Run(decode, events), side).sent == []
  {
    if At(Run(decode, events), side).sent != [] { NothingEchoed(decode, events, side, 0); }
  }

  /** A machine whose content is unsendable stays quiet until its own user copies. */
  lemma StaysQuiet(decode: Decode, w: World, e: Event, side: Side)
    requires Check(At(w, side).content, false) == None && !(e.UserCopy? && e.side == side)
    ensures var t := Step(decode, w, e);
      At(t, side).sent == At(w, side).sent && Check(At(t, side).content, false) == None
  {
    if e == Deliver(side) && At(w, side).inbox != [] && decode(At(w, side).inbox[0]) != [] {
      UpdateUnsendable(At(w, side).content, decode(At(w, side).inbox[0]), side);
    }
  }

  lemma {:induction false} RunMore(decode: Decode, events: seq<Event>, e: Event)
    ensures Run(decode, events + [e]) == Step(decode, Run(decode, events), e)
  {
    assert (events + [e])[..|events|] == events;
  }

  /** Between a delivery and the next copy of its own user a machine sends nothing. */
  lemma {:induction false} QuietAfterDelivery(decode: Decode, events: seq<Event>, side: Side, rest: seq<Event>)
    requires var m := At(Run(decode, events), side); m.inbox != [] && decode(m.inbox[0]) != []
    requires forall i :: 0 <= i < |rest| ==> !(rest[i].UserCopy? && rest[i].side == side)
    ensures var t := At(Run(decode, events + [Deliver(side)] + rest), side);
      t.sent == At(Run(decode, events), side).sent && Check(t.content, false) == None
  {
    var delivered := events + [Deliver(side)];
    if rest == [] {
      RunMore(decode, events, Deliver(side));
      var m := At(Run(decode, events), side);
      UpdateUnsendable(m.content, decode(m.inbox[0]), side);
      assert delivered + rest == delivered;
    } else {
      var before, last := rest[..|rest| - 1], rest[|rest| - 1];
      QuietAfterDelivery(decode, events, side, before);
      assert delivered + rest == delivered + before + [last];
      RunMore(decode, delivered + before, last);
      StaysQuiet(decode, Run(decode, delivered + before), last, side);
    }
  }

  /** And a copy does arrive: what the user copied is what the listener sends. */
  lemma {:induction false} CopyIsSent(decode: Decode, events: seq<Event>, side: Side, content: Content)
    requires !Marked(content) && Filter(content) != []
    ensures var w := Run(decode, events + [UserCopy(side, content), Notify(side)]);
      At(w, Other(side)).inbox == At(Run(decode, events), Other(side)).inbox + [Filter(content)]
  {
    var copied := events + [UserCopy(side, content)];
    assert copied[..|events|] == events;
    assert (events + [UserCopy(side, content), Notify(side)])[..|events| + 1] == copied;
  }
}
