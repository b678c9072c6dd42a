/** The comma-joined list of virtual displays in src/flutter.rs: a session option is split,
    edited and joined again on every change. */
module VirtualDisplays {
  // ---------------------------------------------------------------- split and join

  const COMMA := ','

  /** Splitting always gives at least one part; the empty string gives one empty part. */
  function Split(s: string): (parts: seq<string>)
    ensures parts != []
  {
    if s == [] then [""]
    else
      var rest := Split(s[1..]);
      if s[0] == COMMA then [""] + rest else [[s[0]] + rest[0]] + rest[1..]
  }

  function Join(parts: seq<string>): string {
    if parts == [] then ""
    else if |parts| == 1 then parts[0]
    else parts[0] + [COMMA] + Join(parts[1..])
  }

  ghost predicate CommaFree(part: string) { COMMA !in part }

  ghost predicate AllCommaFree(parts: seq<string>) {
    forall i :: 0 <= i < |parts| ==> CommaFree(parts[i])
  }

  lemma {:induction false} JoinSplit(s: string)
    ensures Join(Split(s)) == s && AllCommaFree(Split(s))
  {
    if s != [] {
      JoinSplit(s[1..]);
      var rest := Split(s[1..]);
      if s[0] == COMMA {
        assert ([""] + rest)[1..] == rest;
        assert s == [COMMA] + s[1..];
      } else {
        var head := [s[0]] + rest[0];
        assert CommaFree(rest[0]);
        assert ([head] + rest[1..])[1..] == rest[1..];
        assert s == [s[0]] + s[1..];
        if |rest| > 1 { assert Join([head] + rest[1..]) == [s[0]] + (rest[0] + [COMMA] + Join(rest[1..])); }
      }
    }
  }

  /** A part in front of a split. */
  lemma {:induction false} SplitPart(part: string, tail: string)
    requires CommaFree(part) && (tail == "" || tail[0] == COMMA)
    ensures Split(part + tail) == if tail == "" then [part] else [part] + Split(tail[1..])
  {
    if part == [] {
      assert part + tail == tail;
    } else {
      assert (part + tail)[1..] == part[1..] + tail;
      assert forall c :: c in part[1..] ==> c in part;
      SplitPart(part[1..], tail);
      assert [part[0]] + part[1..] == part;
      assert part[0] in part;
    }
  }

  lemma {:induction false} SplitJoin(parts: seq<string>)
    requires parts != [] && AllCommaFree(parts)
    ensures Split(Join(parts)) == parts
  {
    assert CommaFree(parts[0]);
    if |parts| == 1 {
      SplitPart(parts[0], "");
      assert parts[0] + "" == parts[0];
    } else {
      assert AllCommaFree(parts[1..]);
      SplitJoin(parts[1..]);
      var tail := [COMMA] + Join(parts[1..]);
      assert parts[0] + [COMMA] + Join(parts[1..]) == parts[0] + tail;
      assert tail[1..] == Join(parts[1..]);
      SplitPart(parts[0], tail);
    }
  }

  // ---------------------------------------------------------------- decimal numbers

  function Digit(d: nat): char
    requires d < 10
  {
    "0123456789"[d]
  }

  function Digits(n: nat): (s: string)
    ensures s != []
  {
    if n < 10 then [Digit(n)] else Digits(n / 10) + [Digit(n % 10)]
  }

  /** `to_string` of an `i32` */
  function Decimal(n: int): (s: string)
    ensures s != []
  {
    if n < 0 then ['-'] + Digits(-n) else Digits(n)
  }

  lemma {:induction false} DigitsPlain(n: nat)
    ensures COMMA !in Digits(n) && '-' !in Digits(n)
  {
    if n >= 10 { DigitsPlain(n / 10); }
  }

  lemma {:induction false} DigitsInjective(m: nat, n: nat)
    requires Digits(m) == Digits(n)
    ensures m == n
  {
    var s := Digits(n);
    assert s[|s| - 1] == Digit(m % 10) == Digit(n % 10);
    if m >= 10 && n >= 10 {
      assert s[..|s| - 1] == Digits(m / 10) == Digits(n / 10);
      DigitsInjective(m / 10, n / 10);
    }
  }

  lemma DecimalSign(n: int)
    ensures Decimal(n)[0] == '-' <==> n < 0
  {
    if n >= 0 {
      DigitsPlain(n);
      assert Digits(n)[0] in Digits(n);
    }
  }

  lemma DecimalInjective(m: int, n: int)
    requires Decimal(m) == Decimal(n)
    ensures m == n
  {
    DecimalSign(m);
    DecimalSign(n);
    if n < 0 {
      assert Digits(-m) == Decimal(m)[1..] == Decimal(n)[1..] == Digits(-n);
      DigitsInjective(-m, -n);
    } else {
      DigitsInjective(m, n);
    }
  }

  lemma DecimalCommaFree(n: int)
    ensures CommaFree(Decimal(n))
  {
    DigitsPlain(if n < 0 then -n else n);
  }

  /** Reading base ten: each character adds its distance from '0' to ten times what came before. */
  function ReadTen(s: string): int {
    if s == "" then 0 else ReadTen(s[..|s| - 1]) * 10 + (s[|s| - 1] as int - '0' as int)
  }

  predicate TenDigits(s: string) {
    s != "" && (forall c :: c in s ==> '0' <= c <= '9') && (s[0] == '0' ==> s == "0")
  }

  lemma ZeroReads()
    ensures ReadTen("0") == 0
  {
    assert "0"[..0] == "";
  }

  lemma {:induction false} DigitsMeaning(n: nat)
    ensures TenDigits(Digits(n)) && ReadTen(Digits(n)) == n
  {
    var last := [Digit(n % 10)];
    if n < 10 {
      assert last[..0] == "";
      assert ReadTen(last) == ReadTen("") * 10 + n;
    } else {
      DigitsMeaning(n / 10);
      var s := Digits(n / 10);
      assert (s + last)[..|s|] == s;
      ZeroReads();
    }
  }

  /** The stored part is the index in base ten: digits without a leading zero that read back as it,
      after a minus sign for a negative index. */
  lemma DecimalMeaning(n: int)
    ensures n >= 0 ==> TenDigits(Decimal(n)) && ReadTen(Decimal(n)) == n
    ensures n < 0 ==> Decimal(n)[0] == '-' && TenDigits(Decimal(n)[1..]) && ReadTen(Decimal(n)[1..]) == -n
  {
    DigitsMeaning(if n < 0 then -n else n);
    if n < 0 { assert Decimal(n)[1..] == Digits(-n); }
  }

  /** Parts are joined by single commas. */
  lemma {:induction false} JoinMeaning(parts: seq<string>, part: string)
    ensures Join([part]) == part
    ensures parts != [] ==> Join([part] + parts) == part + "," + Join(parts)
  {
    assert ([part] + parts)[1..] == parts;
  }

  // ---------------------------------------------------------------- the option

  function IndexOf<T(==)>(s: seq<T>, x: T): (i: nat)
    ensures i <= |s| && (i < |s| ==> s[i] == x) && (forall k :: 0 <= k < i ==> s[k] != x)
  {
    if s == [] || s[0] == x then 0 else 1 + IndexOf(s[1..], x)
  }

  function RemoveAt<T>(s: seq<T>, i: nat): seq<T>
    requires i < |s|
  {
    s[..i] + s[i + 1..]
  }

  /** `s` without its first `x`. */
  function RemoveFirst<T(==)>(s: seq<T>, x: T): seq<T> {
    if IndexOf(s, x) < |s| then RemoveAt(s, IndexOf(s, x)) else s
  }

  function Toggled(displays: string, index: int, on: bool): string {
    var parts := Split(displays);
    if on then
      if index != 0 && Decimal(index) in parts then displays else Join(parts + [Decimal(index)])
    else if index == -1 then ""
    else if index == 0 then Join(parts[..|parts| - 1])
    else if Decimal(index) in parts then Join(RemoveFirst(parts, Decimal(index)))
    else displays
  }

  /** The session options, with the one this code reads and writes. */
  class Session {
    var virtualDisplay: string

    constructor (virtualDisplay: string)
      ensures this.virtualDisplay == virtualDisplay
    {
      this.virtualDisplay := virtualDisplay;
    }

    method UpdateVirtualDisplay(index: int, on: bool)
      modifies this
      ensures virtualDisplay == Toggled(old(virtualDisplay), index, on)
    {
      var displays := virtualDisplay;
      if !on {
        if index == -1 {
          if displays != "" {
            virtualDisplay := "";
          }
        } else {
          var vdisplays := Split(displays);
          var len := |vdisplays|;
          if index == 0 {
            vdisplays := vdisplays[..|vdisplays| - 1];
          } else {
            var i := IndexOf(vdisplays, Decimal(index));
            if i < |vdisplays| {
              vdisplays := vdisplays[..i] + vdisplays[i + 1..];
            }
          }
          if |vdisplays| != len {
            virtualDisplay := Join(vdisplays);
          }
        }
      } else {
        var vdisplays := Split(displays);
        var len := |vdisplays|;
        if index == 0 {
          vdisplays := vdisplays + [Decimal(index)];
        } else {
          if Decimal(index) !in vdisplays {
            vdisplays := vdisplays + [Decimal(index)];
          }
        }
        if |vdisplays| != len {
          virtualDisplay := Join(vdisplays);
        }
      }
    }
  }

  // ---------------------------------------------------------------- the list it stands for

  /** The list operations behind the string ones. */
  function ToggledList(l: seq<int>, index: int, on: bool): seq<int> {
    if on then
      if index != 0 && index in l then l else l + [index]
    else if index == -1 then []
    else if index == 0 then if l == [] then [] else l[..|l| - 1]
    else RemoveFirst(l, index)
  }

  function Decimals(l: seq<int>): seq<string> {
    if l == [] then [] else [Decimal(l[0])] + Decimals(l[1..])
  }

  /** How a list is stored: after an empty part, the one that the empty string splits into. */
  function Stored(l: seq<int>): string {
    Join([""] + Decimals(l))
  }

  lemma {:induction false} DecimalsAt(l: seq<int>)
    ensures |Decimals(l)| == |l| && forall i :: 0 <= i < |l| ==> Decimals(l)[i] == Decimal(l[i])
  {
    if l != [] { DecimalsAt(l[1..]); }
  }

  lemma Associate<T>(a: seq<T>, b: seq<T>, c: seq<T>)
    ensures a + (b + c) == a + b + c
  {
  }

  lemma {:induction false} DecimalsAppend(a: seq<int>, b: seq<int>)
    ensures Decimals(a + b) == Decimals(a) + Decimals(b)
  {
    if a == [] {
      assert a + b == b;
    } else {
      var rest, both := a[1..], a + b;
      DecimalsAppend(rest, b);
      assert both[0] == a[0] && both[1..] == rest + b;
      Associate([Decimal(a[0])], Decimals(rest), Decimals(b));
    }
  }

  lemma DecimalsOne(x: int)
    ensures Decimals([x]) == [Decimal(x)]
  {
    assert [x][1..] == [];
  }

  lemma {:induction false} SplitStored(l: seq<int>)
    ensures Split(Stored(l)) == [""] + Decimals(l)
  {
    DecimalsAt(l);
    var parts := [""] + Decimals(l);
    forall i | 0 <= i < |parts|
      ensures CommaFree(parts[i])
    {
      if i > 0 { DecimalCommaFree(l[i - 1]); }
    }
    SplitJoin(parts);
  }

  /** An index is found in the parts where it is in the list. */
  lemma {:induction false} IndexStored(l: seq<int>, index: int)
    ensures IndexOf([""] + Decimals(l), Decimal(index)) == 1 + IndexOf(l, index)
  {
    DecimalsAt(l);
    var parts, i := [""] + Decimals(l), IndexOf(l, index);
    forall k | 0 <= k < i
      ensures Decimals(l)[k] != Decimal(index)
    {
      if Decimal(l[k]) == Decimal(index) { DecimalInjective(l[k], index); }
    }
    assert parts[1..] == Decimals(l);
    IndexUnique(Decimals(l), Decimal(index), i);
  }

  lemma {:induction false} IndexUnique<T>(s: seq<T>, x: T, i: nat)
    requires i <= |s| && (i < |s| ==> s[i] == x) && forall k :: 0 <= k < i ==> s[k] != x
    ensures IndexOf(s, x) == i
  {
  }

  lemma {:induction false} MemberIndex<T>(s: seq<T>, x: T)
    ensures x in s <==> IndexOf(s, x) < |s|
  {
  }

  lemma StoredMember(l: seq<int>, index: int)
    ensures Decimal(index) in Split(Stored(l)) <==> index in l
  {
    SplitStored(l);
    IndexStored(l, index);
    DecimalsAt(l);
    MemberIndex([""] + Decimals(l), Decimal(index));
    MemberIndex(l, index);
  }

  lemma OnRefines(l: seq<int>, index: int)
    ensures Toggled(Stored(l), index, true) == Stored(ToggledList(l, index, true))
  {
    StoredMember(l, index);
    SplitStored(l);
    DecimalsAppend(l, [index]);
    DecimalsOne(index);
    assert [""] + Decimals(l) + [Decimal(index)] == [""] + (Decimals(l) + [Decimal(index)]);
  }

  lemma PopRefines(l: seq<int>)
    ensures Toggled(Stored(l), 0, false) == Stored(ToggledList(l, 0, false))
  {
    SplitStored(l);
    if l == [] {
      assert [""][..0] == [];
    } else {
      var init, last := l[..|l| - 1], l[|l| - 1];
      DecimalsAppend(init, [last]);
      DecimalsOne(last);
      assert init + [last] == l;
      DropLast([""] + Decimals(init), Decimal(last));
      Associate([""], Decimals(init), [Decimal(last)]);
    }
  }

  lemma DropLast(s: seq<string>, x: string)
    ensures (s + [x])[..|s + [x]| - 1] == s
  {
  }

  lemma {:induction false} DecimalsRemove(l: seq<int>, i: nat)
    requires i < |l|
    ensures |Decimals(l)| == |l|
    ensures Decimals(RemoveAt(l, i)) == RemoveAt(Decimals(l), i)
  {
    var a, x, b := l[..i], l[i], l[i + 1..];
    DecimalsAppend(a, b);
    DecimalsAppend([x], b);
    DecimalsOne(x);
    DecimalsAppend(a, [x] + b);
    SplitAround(l, i);
    DecimalsAt(a);
    DecimalsAt(l);
    CutOut(Decimals(a), Decimal(x), Decimals(b));
  }

  lemma SplitAround(l: seq<int>, i: nat)
    requires i < |l|
    ensures l[..i] + ([l[i]] + l[i + 1..]) == l
  {
  }

  lemma CutOut(a: seq<string>, x: string, b: seq<string>)
    ensures var s := a + ([x] + b); s[..|a|] == a && s[|a| + 1..] == b
  {
  }

  lemma OffRefines(l: seq<int>, index: int)
    requires index != 0 && index != -1
    ensures Toggled(Stored(l), index, false) == Stored(ToggledList(l, index, false))
  {
    StoredMember(l, index);
    MemberIndex(l, index);
    if index in l {
      RemoveStored(l, index);
    }
  }

  lemma {:induction false} RemoveStored(l: seq<int>, index: int)
    requires IndexOf(l, index) < |l|
    ensures RemoveFirst(Split(Stored(l)), Decimal(index)) == [""] + Decimals(RemoveFirst(l, index))
  {
    var i, parts := IndexOf(l, index), [""] + Decimals(l);
    DecimalsRemove(l, i);
    RemoveBehind("", Decimals(l), i);
    assert RemoveFirst(parts, Decimal(index)) == RemoveAt(parts, 1 + i) by { IndexStored(l, index); }
    SplitStored(l);
  }

  lemma RemoveBehind(x: string, s: seq<string>, i: nat)
    requires i < |s|
    ensures RemoveAt([x] + s, 1 + i) == [x] + RemoveAt(s, i)
  {
  }

  /** The string operation is the list operation, across split and join. */
  lemma ToggleRefines(l: seq<int>, index: int, on: bool)
    ensures Toggled(Stored(l), index, on) == Stored(ToggledList(l, index, on))
  {
    if on {
      OnRefines(l, index);
    } else if index == 0 {
      PopRefines(l);
    } else if index != -1 {
      OffRefines(l, index);
    }
  }

  datatype Event = Event(index: int, on: bool)

  function Run(displays: string, events: seq<Event>): string {
    if events == [] then displays
    else
      var e := events[|events| - 1];
      Toggled(Run(displays, events[..|events| - 1]), e.index, e.on)
  }

  function RunList(events: seq<Event>): seq<int> {
    if events == [] then []
    else
      var e := events[|events| - 1];
      ToggledList(RunList(events[..|events| - 1]), e.index, e.on)
  }

  /** From the empty string every run stores the list that the list operations give. */
  lemma {:induction false} RunRefines(events: seq<Event>)
    ensures Run("", events) == Stored(RunList(events))
  {
    if events != [] {
      RunRefines(events[..|events| - 1]);
      var e := events[|events| - 1];
      ToggleRefines(RunList(events[..|events| - 1]), e.index, e.on);
    }
  }

  ghost predicate OnceEach(l: seq<int>) {
    forall i, j :: 0 <= i < j < |l| && l[i] == l[j] ==> l[i] == 0
  }

  /** In every run each index but 0 is listed at most once, so turning it off removes it. */
  lemma {:induction false} RunOnceEach(events: seq<Event>)
    ensures OnceEach(RunList(events))
  {
    if events != [] { RunOnceEach(events[..|events| - 1]); }
  }

  lemma {:induction false} OffRemoves(events: seq<Event>, index: int)
    requires index != 0
    ensures index !in RunList(events + [Event(index, false)])
  {
    RunOnceEach(events);
    assert (events + [Event(index, false)])[..|events|] == events;
    var l := RunList(events);
    MemberIndex(l, index);
  }

  // ---------------------------------------------------------------- undoing

  /** Turning on an absent index and off again restores the exact string, exactly if the index is not
      the one that clears the list, or there was nothing to clear. */
  lemma {:induction false} OnThenOff(displays: string, index: int)
    requires index != 0 && Decimal(index) !in Split(displays)
    ensures Toggled(Toggled(displays, index, true), index, false) == displays <==> index != -1 || displays == ""
  {
    if index != -1 { OnThenOffRestores(displays, index); }
  }

  lemma {:induction false} OnThenOffRestores(displays: string, index: int)
    requires index != 0 && index != -1 && Decimal(index) !in Split(displays)
    ensures Toggled(Toggled(displays, index, true), index, false) == displays
  {
    var parts, x := Split(displays), Decimal(index);
    JoinSplit(displays);
    DecimalCommaFree(index);
    SplitJoin(parts + [x]);
    IndexUnique(parts + [x], x, |parts|);
    assert (parts + [x])[..|parts|] + (parts + [x])[|parts| + 1..] == parts;
  }

  /** Index 0 pushes an entry and pops the last one, whatever the string was. */
  lemma PushThenPop(displays: string)
    ensures Toggled(Toggled(displays, 0, true), 0, false) == displays
  {
    var parts := Split(displays);
    JoinSplit(displays);
    DecimalCommaFree(0);
    SplitJoin(parts + [Decimal(0)]);
    assert (parts + [Decimal(0)])[..|parts|] == parts;
  }
}
