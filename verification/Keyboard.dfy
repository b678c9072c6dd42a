/** The keyboard grab of src/keyboard.rs in map mode: which keys are to be released, which
    modifiers are down, and which codes the remote side holds as a result of what was sent.  An
    event names a key and the position it was struck at; what is sent depends on the position, and
    one key can come with several.  The keycode tables are abstract: a position either has a remote
    code or is not forwarded. */
module Keyboard {
  import opened Common

  datatype Key =
    | ShiftLeft | ShiftRight
    | ControlLeft | ControlRight
    | Alt | AltGr
    | MetaLeft | MetaRight
    | Plain(name: nat)

  datatype Event = KeyPress(key: Key, position: nat) | KeyRelease(key: Key, position: nat) | OtherEvent

  /** A message to the remote side. */
  datatype KeyEvent = KeyEvent(code: nat, down: bool)

  const MODIFIERS: set<Key> := {ShiftLeft, ShiftRight, ControlLeft, ControlRight, Alt, AltGr, MetaLeft, MetaRight}

  /** Remote codes of positions. */
  type Table = map<nat, nat>

  function Code(table: Table, position: nat): Option<nat> {
    if position in table then Some(table[position]) else None
  }

  // ---------------------------------------------------------------- the state as a value

  datatype State = State(toRelease: map<Key, Event>, modifiers: map<Key, bool>, sent: seq<KeyEvent>)

  function Initial(): State {
    State(map[], map m | m in MODIFIERS :: false, [])
  }

  /** The codes the remote side holds after the messages sent to it. */
  function Held(sent: seq<KeyEvent>): set<nat> {
    if sent == [] then {}
    else
      var last, before := sent[|sent| - 1], Held(sent[..|sent| - 1]);
      if last.down then before + {last.code} else before - {last.code}
  }

  predicate IsLongPress(s: State, e: Event) {
    e.KeyPress? && e.key in s.modifiers && s.modifiers[e.key]
  }

  function UpdateModifiers(modifiers: map<Key, bool>, e: Event): map<Key, bool> {
    if !e.OtherEvent? && e.key in modifiers then modifiers[e.key := e.KeyPress?] else modifiers
  }

  /** Only the latest press of a key is kept. */
  function UpdateToRelease(toRelease: map<Key, Event>, e: Event): map<Key, Event> {
    match e
    case KeyPress(k, _) => toRelease[k := e]
    case KeyRelease(k, _) => toRelease - {k}
    case OtherEvent => toRelease
  }

  /** What map mode sends for an event. */
  function Mapped(table: Table, e: Event): seq<KeyEvent> {
    if e.OtherEvent? || e.position !in table then [] else [KeyEvent(table[e.position], e.KeyPress?)]
  }

  function Process(table: Table, s: State, e: Event): State {
    if IsLongPress(s, e) then s
    else State(UpdateToRelease(s.toRelease, e), UpdateModifiers(s.modifiers, e), s.sent + Mapped(table, e))
  }

  function ProcessAll(table: Table, s: State, events: seq<Event>): State {
    if events == [] then s else Process(table, ProcessAll(table, s, events[..|events| - 1]), events[|events| - 1])
  }

  /** Releasing a stored press: Alt and AltGr are pressed and released once more. */
  function ReleaseKey(table: Table, s: State, k: Key, position: nat): State {
    var released := Process(table, s, KeyRelease(k, position));
    if k == Alt || k == AltGr
    then Process(table, Process(table, released, KeyPress(k, position)), KeyRelease(k, position))
    else released
  }

  /** The position of the stored event of a key. */
  function Position(taken: map<Key, Event>, k: Key): nat {
    if k in taken && !taken[k].OtherEvent? then taken[k].position else 0
  }

  function ReleaseKeys(table: Table, s: State, taken: map<Key, Event>, order: seq<Key>): State {
    if order == [] then s
    else
      var last := order[|order| - 1];
      ReleaseKey(table, ReleaseKeys(table, s, taken, order[..|order| - 1]), last, Position(taken, last))
  }

  /** `release_remote_keys` with a given iteration order of the map it takes. */
  function ReleaseRemoteKeys(table: Table, s: State, order: seq<Key>): State {
    ReleaseKeys(table, s.(toRelease := map[]), s.toRelease, order)
  }

  // ---------------------------------------------------------------- the strokes that can occur

  datatype Stroke = Stroke(key: Key, position: nat)

  /** Events come from a set of strokes. */
  ghost predicate From(e: Event, strokes: iset<Stroke>) {
    e.OtherEvent? || Stroke(e.key, e.position) in strokes
  }

  ghost predicate AllFrom(events: seq<Event>, strokes: iset<Stroke>) {
    forall i :: 0 <= i < |events| ==> From(events[i], strokes)
  }

  /** All positions of a key have the same remote code, or none. */
  ghost predicate OneCode(table: Table, strokes: iset<Stroke>) {
    forall s, t | s in strokes && t in strokes && s.key == t.key :: Code(table, s.position) == Code(table, t.position)
  }

  /** Different keys have different codes. */
  ghost predicate OwnCode(table: Table, strokes: iset<Stroke>) {
    forall s, t | s in strokes && t in strokes && Code(table, s.position).Some? ::
      Code(table, s.position) == Code(table, t.position) ==> s.key == t.key
  }

  /** The codes of the stored events. */
  function StoredCodes(table: Table, toRelease: map<Key, Event>): set<nat> {
    set k | k in toRelease && Position(toRelease, k) in table :: table[Position(toRelease, k)]
  }

  // ---------------------------------------------------------------- the two indexes

  /** A modifier is down exactly if it is among `down`. */
  ghost predicate ModifiersAre(modifiers: map<Key, bool>, down: set<Key>) {
    modifiers.Keys == MODIFIERS && forall m :: m in MODIFIERS ==> (modifiers[m] <==> m in down)
  }

  /** What is stored for a key is a press of that key. */
  ghost predicate Presses(toRelease: map<Key, Event>, strokes: iset<Stroke>) {
    forall k :: k in toRelease ==>
      toRelease[k].KeyPress? && toRelease[k].key == k && Stroke(k, toRelease[k].position) in strokes
  }

  /** The keys to release are `pending`, and the modifiers marked down are those of `down`. */
  ghost predicate Indexes(s: State, strokes: iset<Stroke>, pending: set<Key>, down: set<Key>) {
    s.toRelease.Keys == pending && Presses(s.toRelease, strokes) && ModifiersAre(s.modifiers, down)
  }

  /** Between calls a modifier is marked down exactly if it is to be released. */
  ghost predicate Agree(s: State, strokes: iset<Stroke>) {
    Indexes(s, strokes, s.toRelease.Keys, s.toRelease.Keys)
  }

  ghost predicate Clean(s: State) {
    s.toRelease == map[] && Held(s.sent) == {} && ModifiersAre(s.modifiers, {})
  }

  lemma ModifiersUpdated(modifiers: map<Key, bool>, down: set<Key>, e: Event)
    requires ModifiersAre(modifiers, down) && !e.OtherEvent?
    ensures ModifiersAre(UpdateModifiers(modifiers, e), if e.KeyPress? then down + {e.key} else down - {e.key})
  {
  }

  lemma NotLongPress(s: State, k: Key, position: nat, down: set<Key>)
    requires ModifiersAre(s.modifiers, down) && !(k in MODIFIERS && k in down)
    ensures !IsLongPress(s, KeyPress(k, position))
  {
    assert k in s.modifiers ==> k in MODIFIERS;
  }

  lemma PressIndexes(table: Table, s: State, k: Key, position: nat, strokes: iset<Stroke>, pending: set<Key>,
                     down: set<Key>)
    requires Indexes(s, strokes, pending, down) && !(k in MODIFIERS && k in down) && Stroke(k, position) in strokes
    ensures Indexes(Process(table, s, KeyPress(k, position)), strokes, pending + {k}, down + {k})
    ensures Process(table, s, KeyPress(k, position)).sent == s.sent + Mapped(table, KeyPress(k, position))
  {
    NotLongPress(s, k, position, down);
    ModifiersUpdated(s.modifiers, down, KeyPress(k, position));
  }

  lemma ReleaseIndexes(table: Table, s: State, k: Key, position: nat, strokes: iset<Stroke>, pending: set<Key>,
                       down: set<Key>)
    requires Indexes(s, strokes, pending, down)
    ensures Indexes(Process(table, s, KeyRelease(k, position)), strokes, pending - {k}, down - {k})
    ensures Process(table, s, KeyRelease(k, position)).sent == s.sent + Mapped(table, KeyRelease(k, position))
  {
    ModifiersUpdated(s.modifiers, down, KeyRelease(k, position));
  }

  lemma ProcessAgrees(table: Table, s: State, e: Event, strokes: iset<Stroke>)
    requires Agree(s, strokes) && From(e, strokes)
    ensures Agree(Process(table, s, e), strokes)
  {
    var keys := s.toRelease.Keys;
    match e
    case KeyPress(k, p) => if !(k in MODIFIERS && k in keys) { PressIndexes(table, s, k, p, strokes, keys, keys); }
    case KeyRelease(k, p) => ReleaseIndexes(table, s, k, p, strokes, keys, keys);
    case OtherEvent =>
  }

  lemma ShorterFrom(events: seq<Event>, strokes: iset<Stroke>)
    requires events != []
    ensures AllFrom(events, strokes) <==>
            AllFrom(events[..|events| - 1], strokes) && From(events[|events| - 1], strokes)
  {
  }

  /** For every sequence of events, whatever positions the keys have, the two indexes agree. */
  lemma {:induction false} RunAgrees(table: Table, events: seq<Event>, strokes: iset<Stroke>)
    requires AllFrom(events, strokes)
    ensures Agree(ProcessAll(table, Initial(), events), strokes)
  {
    if events != [] {
      ShorterFrom(events, strokes);
      RunAgrees(table, events[..|events| - 1], strokes);
      ProcessAgrees(table, ProcessAll(table, Initial(), events[..|events| - 1]), events[|events| - 1], strokes);
    }
  }

  lemma {:induction false} ProcessMore(table: Table, events: seq<Event>, e: Event)
    ensures ProcessAll(table, Initial(), events + [e]) == Process(table, ProcessAll(table, Initial(), events), e)
  {
    assert (events + [e])[..|events|] == events;
  }

  // ---------------------------------------------------------------- what the remote side holds

  /** The code of a key, when all its positions share one. */
  type Coding = Key -> Option<nat>

  ghost predicate Fits(table: Table, strokes: iset<Stroke>, code: Coding) {
    forall s :: s in strokes ==> Code(table, s.position) == code(s.key)
  }

  ghost function CodingOf(table: Table, strokes: iset<Stroke>): (code: Coding)
    requires OneCode(table, strokes)
    ensures Fits(table, strokes, code)
  {
    (k: Key) => if s: Stroke :| s in strokes && s.key == k then Code(table, s.position) else None
  }

  ghost function CodesOf(code: Coding, keys: set<Key>): set<nat> {
    set k | k in keys && code(k).Some? :: code(k).value
  }

  /** `held` with the code of a key pressed or released. */
  ghost function Struck(held: set<nat>, code: Option<nat>, down: bool): set<nat> {
    if code.None? then held else if down then held + {code.value} else held - {code.value}
  }

  lemma {:induction false} HeldAfter(sent: seq<KeyEvent>, table: Table, e: Event)
    requires !e.OtherEvent?
    ensures Held(sent + Mapped(table, e)) == Struck(Held(sent), Code(table, e.position), e.KeyPress?)
  {
    if Mapped(table, e) != [] {
      assert (sent + Mapped(table, e))[..|sent|] == sent;
    } else {
      assert sent + Mapped(table, e) == sent;
    }
  }

  lemma CodesWith(code: Coding, down: set<Key>, k: Key, held: set<nat>)
    requires held <= CodesOf(code, down)
    ensures Struck(held, code(k), true) <= CodesOf(code, down + {k})
  {
  }

  lemma CodesWithout(code: Coding, down: set<Key>, k: Key, held: set<nat>)
    requires held <= CodesOf(code, down)
    ensures Struck(held, code(k), false) <= CodesOf(code, down - {k})
  {
    forall c | c in Struck(held, code(k), false)
      ensures c in CodesOf(code, down - {k})
    {
      var j :| j in down && code(j).Some? && code(j).value == c;
      assert j in down - {k};
    }
  }

  lemma StoredAre(table: Table, toRelease: map<Key, Event>, strokes: iset<Stroke>, code: Coding)
    requires Presses(toRelease, strokes) && Fits(table, strokes, code)
    ensures StoredCodes(table, toRelease) == CodesOf(code, toRelease.Keys)
  {
    forall k | k in toRelease
      ensures Code(table, Position(toRelease, k)) == code(k)
    {
      assert Stroke(k, toRelease[k].position) in strokes;
    }
  }

  ghost predicate Within(s: State, code: Coding, down: set<Key>) {
    Held(s.sent) <= CodesOf(code, down)
  }

  lemma PressWithin(table: Table, s: State, k: Key, position: nat, strokes: iset<Stroke>, code: Coding, down: set<Key>)
    requires Fits(table, strokes, code) && Stroke(k, position) in strokes && Within(s, code, down)
    requires !IsLongPress(s, KeyPress(k, position))
    ensures Within(Process(table, s, KeyPress(k, position)), code, down + {k})
  {
    assert Code(table, position) == code(Stroke(k, position).key);
    HeldAfter(s.sent, table, KeyPress(k, position));
    CodesWith(code, down, k, Held(s.sent));
  }

  lemma ReleaseWithin(table: Table, s: State, k: Key, position: nat, strokes: iset<Stroke>, code: Coding,
                      down: set<Key>)
    requires Fits(table, strokes, code) && Stroke(k, position) in strokes && Within(s, code, down)
    ensures Within(Process(table, s, KeyRelease(k, position)), code, down - {k})
  {
    assert Code(table, position) == code(Stroke(k, position).key);
    HeldAfter(s.sent, table, KeyRelease(k, position));
    CodesWithout(code, down, k, Held(s.sent));
  }

  lemma ProcessWithin(table: Table, s: State, e: Event, strokes: iset<Stroke>, code: Coding)
    requires Fits(table, strokes, code) && From(e, strokes) && Within(s, code, s.toRelease.Keys)
    ensures Within(Process(table, s, e), code, Process(table, s, e).toRelease.Keys)
  {
    var keys := s.toRelease.Keys;
    match e
    case KeyPress(k, p) =>
      if !IsLongPress(s, e) {
        PressWithin(table, s, k, p, strokes, code, keys);
        assert Process(table, s, e).toRelease.Keys == keys + {k};
      }
    case KeyRelease(k, p) =>
      ReleaseWithin(table, s, k, p, strokes, code, keys);
      assert Process(table, s, e).toRelease.Keys == keys - {k};
    case OtherEvent => assert s.sent + [] == s.sent;
  }

  lemma {:induction false} RunWithin(table: Table, events: seq<Event>, strokes: iset<Stroke>, code: Coding)
    requires AllFrom(events, strokes) && Fits(table, strokes, code)
    ensures var s := ProcessAll(table, Initial(), events); Within(s, code, s.toRelease.Keys)
  {
    if events != [] {
      var before := events[..|events| - 1];
      ShorterFrom(events, strokes);
      RunWithin(table, before, strokes, code);
      ProcessWithin(table, ProcessAll(table, Initial(), before), events[|events| - 1], strokes, code);
    }
  }

  // ---------------------------------------------------------------- no more than what is stored

  ghost predicate NothingElse(table: Table, s: State) {
    Held(s.sent) <= StoredCodes(table, s.toRelease)
  }

  ghost predicate AlwaysNothingElse(table: Table, strokes: iset<Stroke>) {
    forall events | AllFrom(events, strokes) :: NothingElse(table, ProcessAll(table, Initial(), events))
  }

  /** Pressing a key at one position and releasing it at another leaves the first code held, with
      nothing to release. */
  lemma {:induction false} StaysHeld(table: Table, k: Key, p1: nat, p2: nat)
    requires Code(table, p1).Some? && Code(table, p1) != Code(table, p2)
    ensures var s := ProcessAll(table, Initial(), [] + [KeyPress(k, p1)] + [KeyRelease(k, p2)]);
      s.toRelease == map[] && Held(s.sent) == {table[p1]}
  {
    ProcessMore(table, [], KeyPress(k, p1));
    ProcessMore(table, [] + [KeyPress(k, p1)], KeyRelease(k, p2));
    var s := Process(table, Initial(), KeyPress(k, p1));
    HeldAfter([], table, KeyPress(k, p1));
    HeldAfter(s.sent, table, KeyRelease(k, p2));
    assert s.toRelease == map[k := KeyPress(k, p1)] && s.toRelease - {k} == map[];
  }

  lemma TwoCodes(table: Table, strokes: iset<Stroke>) returns (k: Key, p1: nat, p2: nat, events: seq<Event>)
    requires !OneCode(table, strokes)
    ensures Stroke(k, p1) in strokes && Stroke(k, p2) in strokes
    ensures Code(table, p1).Some? && Code(table, p1) != Code(table, p2)
    ensures events == [] + [KeyPress(k, p1)] + [KeyRelease(k, p2)] && AllFrom(events, strokes)
  {
    var s, t :| s in strokes && t in strokes && s.key == t.key && Code(table, s.position) != Code(table, t.position);
    k, p1, p2 := s.key, s.position, t.position;
    if Code(table, p1).None? { p1, p2 := p2, p1; }
    assert s == Stroke(s.key, s.position) && t == Stroke(t.key, t.position);
    events := [] + [KeyPress(k, p1)] + [KeyRelease(k, p2)];
  }

  /** In every run the remote side holds no codes but those of the stored events, exactly if all
      positions of a key share one code. */
  lemma NothingElseExactly(table: Table, strokes: iset<Stroke>)
    ensures AlwaysNothingElse(table, strokes) <==> OneCode(table, strokes)
  {
    if OneCode(table, strokes) {
      var code := CodingOf(table, strokes);
      forall events | AllFrom(events, strokes)
        ensures NothingElse(table, ProcessAll(table, Initial(), events))
      {
        RunAgrees(table, events, strokes);
        RunWithin(table, events, strokes, code);
        StoredAre(table, ProcessAll(table, Initial(), events).toRelease, strokes, code);
      }
    } else {
      var k, p1, p2, events := TwoCodes(table, strokes);
      StaysHeld(table, k, p1, p2);
      assert table[p1] !in StoredCodes(table, map[]);
      assert !NothingElse(table, ProcessAll(table, Initial(), events));
    }
  }

  // ---------------------------------------------------------------- exactly what is stored

  ghost predicate Exact(table: Table, s: State) {
    Held(s.sent) == StoredCodes(table, s.toRelease)
  }

  ghost predicate AlwaysExact(table: Table, strokes: iset<Stroke>) {
    forall events | AllFrom(events, strokes) :: Exact(table, ProcessAll(table, Initial(), events))
  }

  /** Different keys, one code: pressing both and releasing one loses the other. */
  lemma {:induction false} SharedCodeLosesKey(table: Table, s: Stroke, t: Stroke)
    requires Code(table, s.position).Some? && Code(table, s.position) == Code(table, t.position) && s.key != t.key
    ensures var events := [] + [KeyPress(s.key, s.position)] + [KeyPress(t.key, t.position)]
              + [KeyRelease(s.key, s.position)];
      !Exact(table, ProcessAll(table, Initial(), events))
  {
    var e1, e2, e3 := KeyPress(s.key, s.position), KeyPress(t.key, t.position), KeyRelease(s.key, s.position);
    ProcessMore(table, [], e1);
    ProcessMore(table, [] + [e1], e2);
    ProcessMore(table, [] + [e1] + [e2], e3);
    var s1 := Process(table, Initial(), e1);
    var s2 := Process(table, s1, e2);
    var all := iset{s, t};
    assert s == Stroke(s.key, s.position) && t == Stroke(t.key, t.position);
    PressIndexes(table, Initial(), s.key, s.position, all, {}, {});
    PressIndexes(table, s1, t.key, t.position, all, {} + {s.key}, {} + {s.key});
    HeldAfter([], table, e1);
    HeldAfter(s1.sent, table, e2);
    HeldAfter(s2.sent, table, e3);
    var s3 := Process(table, s2, e3);
    assert Held(s3.sent) == {};
    assert t.key in s3.toRelease && Position(s3.toRelease, t.key) == t.position;
    assert table[t.position] in StoredCodes(table, s3.toRelease);
  }

  /** Keys that are marked pressed have their codes held. */
  ghost predicate Covers(s: State, code: Coding) {
    CodesOf(code, s.toRelease.Keys) <= Held(s.sent)
  }

  /** Different keys have different codes. */
  ghost predicate Apart(strokes: iset<Stroke>, code: Coding) {
    forall s, t | s in strokes && t in strokes && code(s.key).Some? :: code(s.key) == code(t.key) ==> s.key == t.key
  }

  lemma ProcessCovers(table: Table, s: State, e: Event, strokes: iset<Stroke>, code: Coding)
    requires Fits(table, strokes, code) && Apart(strokes, code) && Presses(s.toRelease, strokes)
    requires From(e, strokes) && Covers(s, code)
    ensures Covers(Process(table, s, e), code)
  {
    var t := Process(table, s, e);
    if e.OtherEvent? {
      assert s.sent + [] == s.sent;
    } else if !IsLongPress(s, e) {
      HeldAfter(s.sent, table, e);
      assert Code(table, e.position) == code(Stroke(e.key, e.position).key);
      forall j | j in t.toRelease.Keys && code(j).Some?
        ensures code(j).value in Held(t.sent)
      {
        if j in s.toRelease.Keys {
          assert code(j).value in CodesOf(code, s.toRelease.Keys);
          assert Stroke(j, s.toRelease[j].position).key == j;
        }
      }
    }
  }

  lemma {:induction false} RunCovers(table: Table, events: seq<Event>, strokes: iset<Stroke>, code: Coding)
    requires AllFrom(events, strokes) && Fits(table, strokes, code) && Apart(strokes, code)
    ensures Covers(ProcessAll(table, Initial(), events), code)
  {
    if events != [] {
      var before := events[..|events| - 1];
      ShorterFrom(events, strokes);
      RunCovers(table, before, strokes, code);
      RunAgrees(table, before, strokes);
      ProcessCovers(table, ProcessAll(table, Initial(), before), events[|events| - 1], strokes, code);
    }
  }

  /** The remote side holds exactly the codes of the stored events, in every run, exactly if all
      positions of a key share one code and no two keys do. */
  lemma ExactExactly(table: Table, strokes: iset<Stroke>)
    ensures AlwaysExact(table, strokes) <==> OneCode(table, strokes) && OwnCode(table, strokes)
  {
    if !OneCode(table, strokes) {
      var k, p1, p2, events := TwoCodes(table, strokes);
      StaysHeld(table, k, p1, p2);
      assert !Exact(table, ProcessAll(table, Initial(), events));
    } else if !OwnCode(table, strokes) {
      var s, t :| && s in strokes && t in strokes && Code(table, s.position).Some?
                  && Code(table, s.position) == Code(table, t.position) && s.key != t.key;
      SharedCodeLosesKey(table, s, t);
      var events := [] + [KeyPress(s.key, s.position)] + [KeyPress(t.key, t.position)]
        + [KeyRelease(s.key, s.position)];
      assert s == Stroke(s.key, s.position) && t == Stroke(t.key, t.position);
      assert AllFrom(events, strokes);
    } else {
      var code := CodingOf(table, strokes);
      forall events | AllFrom(events, strokes)
        ensures Exact(table, ProcessAll(table, Initial(), events))
      {
        RunAgrees(table, events, strokes);
        RunWithin(table, events, strokes, code);
        RunCovers(table, events, strokes, code);
        StoredAre(table, ProcessAll(table, Initial(), events).toRelease, strokes, code);
      }
    }
  }

  // ---------------------------------------------------------------- releasing

  /** Part way through a release: the keys still to come are exactly the modifiers marked down. */
  ghost predicate Releasing(s: State, strokes: iset<Stroke>, rest: set<Key>) {
    Indexes(s, strokes, {}, rest)
  }

  /** Releasing one key keeps to the indexes, and with one code per key to what can be held. */
  lemma ReleaseKeyProgress(table: Table, s: State, strokes: iset<Stroke>, rest: set<Key>, k: Key, position: nat)
    requires Releasing(s, strokes, rest) && k in rest && Stroke(k, position) in strokes
    ensures Releasing(ReleaseKey(table, s, k, position), strokes, rest - {k})
    ensures forall code :: Fits(table, strokes, code) && Within(s, code, rest) ==>
              Within(ReleaseKey(table, s, k, position), code, rest - {k})
  {
    var left := rest - {k};
    var released := Process(table, s, KeyRelease(k, position));
    ReleaseIndexes(table, s, k, position, strokes, {}, rest);
    if k == Alt || k == AltGr {
      PressIndexes(table, released, k, position, strokes, {}, left);
      var pressed := Process(table, released, KeyPress(k, position));
      ReleaseIndexes(table, pressed, k, position, strokes, {} + {k}, left + {k});
      assert {} + {k} - {k} == {} && left + {k} - {k} == left;
    }
    forall code | Fits(table, strokes, code) && Within(s, code, rest)
      ensures Within(ReleaseKey(table, s, k, position), code, left)
    {
      ReleaseKeyWithin(table, s, strokes, rest, k, position, code);
    }
  }

  lemma ReleaseKeyWithin(table: Table, s: State, strokes: iset<Stroke>, rest: set<Key>, k: Key, position: nat,
                         code: Coding)
    requires Releasing(s, strokes, rest) && k in rest && Stroke(k, position) in strokes
    requires Fits(table, strokes, code) && Within(s, code, rest)
    ensures Within(ReleaseKey(table, s, k, position), code, rest - {k})
  {
    var left := rest - {k};
    var released := Process(table, s, KeyRelease(k, position));
    ReleaseWithin(table, s, k, position, strokes, code, rest);
    if k == Alt || k == AltGr {
      ReleaseIndexes(table, s, k, position, strokes, {}, rest);
      NotLongPress(released, k, position, left);
      PressWithin(table, released, k, position, strokes, code, left);
      ReleaseWithin(table, Process(table, released, KeyPress(k, position)), k, position, strokes, code, left + {k});
      assert left + {k} - {k} == left;
    }
  }

  /** An order in which a map with these keys can be iterated. */
  ghost predicate Enumerates(order: seq<Key>, keys: set<Key>) {
    && (forall k :: k in order <==> k in keys)
    && (forall i, j :: 0 <= i < j < |order| ==> order[i] != order[j])
  }

  /** After some keys of the taken map, in any order. */
  lemma {:induction false} ReleaseProgress(table: Table, s: State, strokes: iset<Stroke>, taken: map<Key, Event>,
                                           order: seq<Key>)
    requires Releasing(s, strokes, taken.Keys) && Presses(taken, strokes)
    requires forall k :: k in order ==> k in taken.Keys
    requires forall i, j :: 0 <= i < j < |order| ==> order[i] != order[j]
    ensures var t, left := ReleaseKeys(table, s, taken, order), taken.Keys - set k | k in order;
      Releasing(t, strokes, left)
      && forall code :: Fits(table, strokes, code) && Within(s, code, taken.Keys) ==> Within(t, code, left)
  {
    if order == [] {
      assert taken.Keys - (set k | k in order) == taken.Keys;
    } else {
      var before, last := order[..|order| - 1], order[|order| - 1];
      ReleaseProgress(table, s, strokes, taken, before);
      var left := taken.Keys - set k | k in before;
      assert last !in before && last in taken;
      ReleaseKeyProgress(table, ReleaseKeys(table, s, taken, before), strokes, left, last, Position(taken, last));
      assert left - {last} == taken.Keys - set k | k in order;
    }
  }

  /** A release, in any order and whatever the positions, leaves nothing to release and every modifier
      up; and nothing held, if all positions of a key share one code. */
  lemma {:induction false} ReleaseCleans(table: Table, events: seq<Event>, order: seq<Key>, strokes: iset<Stroke>)
    requires AllFrom(events, strokes)
    requires Enumerates(order, ProcessAll(table, Initial(), events).toRelease.Keys)
    ensures var t := ReleaseRemoteKeys(table, ProcessAll(table, Initial(), events), order);
      && t.toRelease == map[] && ModifiersAre(t.modifiers, {})
      && (OneCode(table, strokes) ==> Clean(t))
  {
    var s := ProcessAll(table, Initial(), events);
    RunAgrees(table, events, strokes);
    ReleaseProgress(table, s.(toRelease := map[]), strokes, s.toRelease, order);
    assert s.toRelease.Keys - (set k | k in order) == {};
    if OneCode(table, strokes) {
      var code := CodingOf(table, strokes);
      RunWithin(table, events, strokes, code);
      assert Within(s.(toRelease := map[]), code, s.toRelease.Keys);
    }
  }

  ghost predicate AlwaysCleans(table: Table, strokes: iset<Stroke>) {
    forall events, order |
      AllFrom(events, strokes) && Enumerates(order, ProcessAll(table, Initial(), events).toRelease.Keys) ::
      Clean(ReleaseRemoteKeys(table, ProcessAll(table, Initial(), events), order))
  }

  /** Every run followed by a release, in any iteration order, leaves no code held, nothing to release
      and every modifier up, exactly if all positions of a key share one code or none. */
  lemma CleansExactly(table: Table, strokes: iset<Stroke>)
    ensures AlwaysCleans(table, strokes) <==> OneCode(table, strokes)
  {
    if OneCode(table, strokes) {
      forall events, order |
        AllFrom(events, strokes) && Enumerates(order, ProcessAll(table, Initial(), events).toRelease.Keys)
        ensures Clean(ReleaseRemoteKeys(table, ProcessAll(table, Initial(), events), order))
      {
        ReleaseCleans(table, events, order, strokes);
      }
    } else {
      var k, p1, p2, events := TwoCodes(table, strokes);
      StaysHeld(table, k, p1, p2);
      var s := ProcessAll(table, Initial(), events);
      assert Enumerates([], s.toRelease.Keys);
      assert ReleaseRemoteKeys(table, s, []) == s;
    }
  }

  // ---------------------------------------------------------------- what is sent

  /** The modifiers are the keys that are not plain. */
  lemma ModifierKeys(k: Key)
    ensures k in MODIFIERS <==> !k.Plain?
  {
  }

  /** The last event of a key is a press. */
  predicate IsDown(events: seq<Event>, k: Key) {
    if events == [] then false
    else
      var e := events[|events| - 1];
      if !e.OtherEvent? && e.key == k then e.KeyPress? else IsDown(events[..|events| - 1], k)
  }

  /** The keys to release are those whose last event is a press. */
  lemma {:induction false} StoredIsDown(table: Table, events: seq<Event>, k: Key, strokes: iset<Stroke>)
    requires AllFrom(events, strokes)
    ensures k in ProcessAll(table, Initial(), events).toRelease <==> IsDown(events, k)
  {
    if events != [] {
      var before, e := events[..|events| - 1], events[|events| - 1];
      ShorterFrom(events, strokes);
      StoredIsDown(table, before, k, strokes);
      RunAgrees(table, before, strokes);
    }
  }

  /** The message that presses or releases a position, if it has a code. */
  function Message(table: Table, position: nat, down: bool): seq<KeyEvent> {
    match Code(table, position)
    case None => []
    case Some(code) => [KeyEvent(code, down)]
  }

  /** What one more event sends: nothing for a press of a modifier that is down, or for an event that is not
      of the keyboard; else the code of the position, down or up. */
  function Sends(table: Table, events: seq<Event>, e: Event): seq<KeyEvent> {
    if e.OtherEvent? || (e.KeyPress? && !e.key.Plain? && IsDown(events, e.key)) then []
    else Message(table, e.position, e.KeyPress?)
  }

  lemma {:induction false} EventSends(table: Table, events: seq<Event>, e: Event, strokes: iset<Stroke>)
    requires AllFrom(events, strokes)
    ensures ProcessAll(table, Initial(), events + [e]).sent
         == ProcessAll(table, Initial(), events).sent + Sends(table, events, e)
  {
    ProcessMore(table, events, e);
    RunAgrees(table, events, strokes);
    var s := ProcessAll(table, Initial(), events);
    assert s.sent + [] == s.sent;
    if e.KeyPress? {
      StoredIsDown(table, events, e.key, strokes);
      ModifierKeys(e.key);
    }
  }

  /** What the release of a stored event sends: its code up; for Alt and AltGr also down and up again. */
  function KeyUp(table: Table, k: Key, position: nat): seq<KeyEvent> {
    match Code(table, position)
    case None => []
    case Some(code) =>
      if k == Alt || k == AltGr then [KeyEvent(code, false), KeyEvent(code, true), KeyEvent(code, false)]
      else [KeyEvent(code, false)]
  }

  function KeysUp(table: Table, taken: map<Key, Event>, order: seq<Key>): seq<KeyEvent> {
    if order == [] then []
    else
      var last := order[|order| - 1];
      KeysUp(table, taken, order[..|order| - 1]) + KeyUp(table, last, Position(taken, last))
  }

  lemma ReleaseKeySends(table: Table, s: State, k: Key, position: nat)
    requires s.modifiers.Keys == MODIFIERS
    ensures ReleaseKey(table, s, k, position).sent == s.sent + KeyUp(table, k, position)
    ensures ReleaseKey(table, s, k, position).modifiers.Keys == MODIFIERS
  {
    var released := Process(table, s, KeyRelease(k, position));
    assert s.sent + [] == s.sent;
    if k == Alt || k == AltGr {
      assert !IsLongPress(released, KeyPress(k, position));
      var up := Mapped(table, KeyRelease(k, position));
      var down := Mapped(table, KeyPress(k, position));
      assert ReleaseKey(table, s, k, position).sent == s.sent + up + down + up;
    }
  }

  lemma {:induction false} ReleaseKeysSend(table: Table, s: State, taken: map<Key, Event>, order: seq<Key>)
    requires s.modifiers.Keys == MODIFIERS
    ensures ReleaseKeys(table, s, taken, order).sent == s.sent + KeysUp(table, taken, order)
    ensures ReleaseKeys(table, s, taken, order).modifiers.Keys == MODIFIERS
  {
    if order != [] {
      var before, last := order[..|order| - 1], order[|order| - 1];
      ReleaseKeysSend(table, s, taken, before);
      ReleaseKeySends(table, ReleaseKeys(table, s, taken, before), last, Position(taken, last));
    }
  }

  /** After any events, a release in any order sends, key by key, what releases the stored event. */
  lemma {:induction false} ReleaseSends(table: Table, events: seq<Event>, order: seq<Key>, strokes: iset<Stroke>)
    requires AllFrom(events, strokes)
    ensures var s := ProcessAll(table, Initial(), events);
      ReleaseRemoteKeys(table, s, order).sent == s.sent + KeysUp(table, s.toRelease, order)
  {
    var s := ProcessAll(table, Initial(), events);
    RunAgrees(table, events, strokes);
    ReleaseKeysSend(table, s.(toRelease := map[]), s.toRelease, order);
  }

  // ---------------------------------------------------------------- the two Enter keys of Windows

  /** Both Enter keys have virtual-key code 13, and so are one key with two positions. */
  const RETURN := Plain(13)
  const ENTER := 0x1C
  const KEYPAD_ENTER := 0xE01C

  function BothPressed(table: Table): State {
    var first := Process(table, Initial(), KeyPress(RETURN, ENTER));
    Process(table, first, KeyPress(RETURN, KEYPAD_ENTER))
  }

  /** With both pressed only the second is stored. */
  lemma {:induction false} SecondStored(table: Table)
    requires ENTER in table && KEYPAD_ENTER in table && table[ENTER] != table[KEYPAD_ENTER]
    ensures ProcessAll(table, Initial(), [] + [KeyPress(RETURN, ENTER)] + [KeyPress(RETURN, KEYPAD_ENTER)])
         == BothPressed(table)
    ensures BothPressed(table).toRelease == map[RETURN := KeyPress(RETURN, KEYPAD_ENTER)]
    ensures Held(BothPressed(table).sent) == {table[ENTER], table[KEYPAD_ENTER]}
  {
    var e1, e2 := KeyPress(RETURN, ENTER), KeyPress(RETURN, KEYPAD_ENTER);
    ProcessMore(table, [], e1);
    ProcessMore(table, [] + [e1], e2);
    HeldAfter([], table, e1);
    HeldAfter(Process(table, Initial(), e1).sent, table, e2);
  }

  lemma SecondReleased(table: Table, s: State)
    requires ENTER in table && KEYPAD_ENTER in table && table[ENTER] != table[KEYPAD_ENTER]
    requires Held(s.sent) == {table[ENTER], table[KEYPAD_ENTER]}
    ensures Held(Process(table, s, KeyRelease(RETURN, KEYPAD_ENTER)).sent) == {table[ENTER]}
  {
    HeldAfter(s.sent, table, KeyRelease(RETURN, KEYPAD_ENTER));
  }

  /** Then a release forgets the first one; and if the keypad's is let go, there is nothing left to
      release, though the first is held. */
  lemma {:induction false} EnterStaysHeld(table: Table)
    requires ENTER in table && KEYPAD_ENTER in table && table[ENTER] != table[KEYPAD_ENTER]
    ensures var both := [] + [KeyPress(RETURN, ENTER)] + [KeyPress(RETURN, KEYPAD_ENTER)];
      Held(ReleaseRemoteKeys(table, ProcessAll(table, Initial(), both), [RETURN]).sent) == {table[ENTER]}
    ensures var both := [] + [KeyPress(RETURN, ENTER)] + [KeyPress(RETURN, KEYPAD_ENTER)];
      var s := ProcessAll(table, Initial(), both + [KeyRelease(RETURN, KEYPAD_ENTER)]);
      s.toRelease == map[] && Held(s.sent) == {table[ENTER]}
  {
    var both := [] + [KeyPress(RETURN, ENTER)] + [KeyPress(RETURN, KEYPAD_ENTER)];
    var s := BothPressed(table);
    SecondStored(table);
    ProcessMore(table, both, KeyRelease(RETURN, KEYPAD_ENTER));
    SecondReleased(table, s);
    assert s.toRelease - {RETURN} == map[];
    var taken := s.(toRelease := map[]);
    OneMore(table, taken, s.toRelease, [], RETURN);
    SecondReleased(table, taken);
    assert [] + [RETURN] == [RETURN] && Position(s.toRelease, RETURN) == KEYPAD_ENTER;
  }

  // ---------------------------------------------------------------- the two global maps

  class Grab {
    const table: Table
    ghost const strokes: iset<Stroke> // those that can occur
    var toRelease: map<Key, Event>
    var modifiers: map<Key, bool>
    var sent: seq<KeyEvent>

    ghost function View(): State
      reads this
    {
      State(toRelease, modifiers, sent)
    }

    /** The indexes agree; and with one code per key, only stored codes are held. */
    ghost predicate Valid()
      reads this
    {
      && Agree(View(), strokes)
      && (OneCode(table, strokes) ==> Within(View(), CodingOf(table, strokes), toRelease.Keys))
    }

    constructor (table: Table, ghost strokes: iset<Stroke>)
      ensures Valid() && View() == Initial() && this.table == table && this.strokes == strokes
    {
      this.table := table;
      this.strokes := strokes;
      toRelease := map[];
      modifiers := map m | m in MODIFIERS :: false;
      sent := [];
    }

    /** One event, whether or not the indexes agree. */
    method Dispatch(e: Event)
      requires modifiers.Keys == MODIFIERS
      modifies this
      ensures View() == Process(table, old(View()), e)
      ensures modifiers.Keys == MODIFIERS
    {
      if e.KeyPress? && e.key in modifiers && modifiers[e.key] {
        return;
      }
      if !e.OtherEvent? && e.key in modifiers {
        modifiers := modifiers[e.key := e.KeyPress?];
      }
      match e {
        case KeyPress(k, _) => toRelease := toRelease[k := e];
        case KeyRelease(k, _) => toRelease := toRelease - {k};
        case OtherEvent =>
      }
      if !e.OtherEvent? && e.position in table {
        sent := sent + [KeyEvent(table[e.position], e.KeyPress?)];
      }
    }

    method ProcessEvent(e: Event)
      requires Valid() && From(e, strokes)
      modifies this
      ensures Valid() && View() == Process(table, old(View()), e)
    {
      ProcessAgrees(table, View(), e, strokes);
      if OneCode(table, strokes) { ProcessWithin(table, View(), e, strokes, CodingOf(table, strokes)); }
      Dispatch(e);
    }

    /** The remote side may hold the Alt state, so Alt and AltGr are struck once more. */
    method ReleaseOne(k: Key, position: nat)
      requires modifiers.Keys == MODIFIERS
      modifies this
      ensures View() == ReleaseKey(table, old(View()), k, position)
      ensures sent == old(sent) + KeyUp(table, k, position)
    {
      ReleaseKeySends(table, View(), k, position);
      Dispatch(KeyRelease(k, position));
      if k == Alt || k == AltGr {
        Dispatch(KeyPress(k, position));
        Dispatch(KeyRelease(k, position));
      }
    }

    /** The map is taken and cleared, then its keys are visited in an order nobody chooses; the
        indexes disagree until the last one. */
    method ReleaseAll() returns (ghost order: seq<Key>)
      requires Valid()
      modifies this
      ensures Enumerates(order, old(toRelease.Keys)) && View() == ReleaseRemoteKeys(table, old(View()), order)
      ensures Valid() && toRelease == map[] && ModifiersAre(modifiers, {})
      ensures sent == old(sent) + KeysUp(table, old(toRelease), order)
      ensures OneCode(table, strokes) ==> Clean(View())
    {
      var taken := toRelease;
      var remaining := taken.Keys;
      toRelease := map[];
      order := [];
      ghost var start := View();
      while remaining != {}
        invariant remaining <= taken.Keys && Presses(taken, strokes)
        invariant View() == ReleaseKeys(table, start, taken, order)
        invariant Enumerates(order, taken.Keys - remaining)
        invariant Releasing(View(), strokes, remaining)
        invariant OneCode(table, strokes) ==> Within(View(), CodingOf(table, strokes), remaining)
        decreases remaining
      {
        var k :| k in remaining;
        var p := taken[k].position;
        ReleaseKeyProgress(table, View(), strokes, remaining, k, p);
        OneMore(table, start, taken, order, k);
        ReleaseOne(k, p);
        remaining := remaining - {k};
        order := order + [k];
      }
      ReleaseKeysSend(table, start, taken, order);
    }
  }

  lemma {:induction false} OneMore(table: Table, s: State, taken: map<Key, Event>, order: seq<Key>, k: Key)
    ensures ReleaseKeys(table, s, taken, order + [k]) ==
            ReleaseKey(table, ReleaseKeys(table, s, taken, order), k, Position(taken, k))
  {
    assert (order + [k])[..|order|] == order;
  }
}
