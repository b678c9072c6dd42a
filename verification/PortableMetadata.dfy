/** The metadata file of the portable packer: libs/portable/generate.py writes it, and
    libs/portable/src/bin_reader.rs reads it.  A panic of the reader is `None`. */
module PortableMetadata {
  import opened Common

  type Bytes = seq<Byte>

  /** A packed file.  Paths are UTF-8; the digest is 32 hexadecimal digits. */
  datatype Entry = Entry(path: Bytes, data: Bytes, md5: Bytes)

  datatype Package = Package(files: seq<Entry>, exe: Bytes)

  /** "hoptodesk" */
  const MAGIC: Bytes := [0x68, 0x6f, 0x70, 0x74, 0x6f, 0x64, 0x65, 0x73, 0x6b]
  const LENGTH := 4
  const MD5_LENGTH := 32

  /** The width the reader uses for the nine bytes of the marker. */
  const IDENTIFIER_LENGTH := 8

  lemma MagicSpells()
    ensures |MAGIC| == |"hoptodesk"| && forall i :: 0 <= i < |MAGIC| ==> MAGIC[i] == "hoptodesk"[i] as int
  {
  }

  // ---------------------------------------------------------------- lengths

  /** Four bytes, the most significant first. */
  function BigEndian(n: nat): Bytes
    requires n < U32
  {
    [n / 0x100_0000, n / 0x1_0000 % 0x100, n / 0x100 % 0x100, n % 0x100]
  }

  function FromBigEndian(b: Bytes): nat
    requires |b| == LENGTH
  {
    b[0] as int * 0x100_0000 + b[1] as int * 0x1_0000 + b[2] as int * 0x100 + b[3] as int
  }

  lemma LengthRoundTrip(n: nat)
    requires n < U32
    ensures |BigEndian(n)| == LENGTH && FromBigEndian(BigEndian(n)) == n
  {
    var a, b := n / 0x100, n / 0x1_0000;
    assert n == a * 0x100 + n % 0x100;
    assert a == b * 0x100 + a % 0x100;
    assert b == n / 0x100_0000 * 0x100 + b % 0x100;
  }

  // ---------------------------------------------------------------- the writer

  predicate Fits(files: seq<Entry>) {
    forall e :: e in files ==> |e.path| < U32 && |e.data| < U32
  }

  function EntryBytes(e: Entry): Bytes
    requires |e.path| < U32 && |e.data| < U32
  {
    BigEndian(|e.path|) + e.path + BigEndian(|e.data|) + e.data + e.md5
  }

  function Body(files: seq<Entry>): Bytes
    requires Fits(files)
  {
    if files == [] then [] else EntryBytes(files[0]) + Body(files[1..])
  }

  function Encode(p: Package): Bytes
    requires Fits(p.files)
  {
    MAGIC + Body(p.files) + MAGIC + p.exe
  }

  /** Where each field of an entry stands: two lengths of four bytes, each before what it counts, and
      the digest at the end. */
  lemma EntryLayout(e: Entry)
    requires |e.path| < U32 && |e.data| < U32
    ensures var b, p, d := EntryBytes(e), |e.path|, |e.data|;
      && |b| == 8 + p + d + |e.md5|
      && b[..4] == BigEndian(p) && b[4..4 + p] == e.path
      && b[4 + p..8 + p] == BigEndian(d) && b[8 + p..8 + p + d] == e.data && b[8 + p + d..] == e.md5
  {
    FiveFields(BigEndian(|e.path|), e.path, BigEndian(|e.data|), e.data, e.md5);
  }

  lemma FiveFields(a: Bytes, b: Bytes, c: Bytes, d: Bytes, e: Bytes)
    ensures var all := a + b + c + d + e; var k := |a| + |b|;
      && all[..|a|] == a && all[|a|..k] == b
      && all[k..k + |c|] == c && all[k + |c|..k + |c| + |d|] == d && all[k + |c| + |d|..] == e
  {
  }

  lemma FitsSplit(files: seq<Entry>, e: Entry)
    ensures Fits(files + [e]) <==> Fits(files) && |e.path| < U32 && |e.data| < U32
    ensures files != [] && Fits(files) ==> Fits(files[1..])
  {
    assert (files + [e])[|files|] == e;
    assert forall x :: x in files + [e] <==> x in files || x == e;
    assert forall i :: 0 <= i < |files| ==> files[i] in files;
  }

  lemma {:induction false} BodyAppend(files: seq<Entry>, e: Entry)
    requires Fits(files) && |e.path| < U32 && |e.data| < U32
    ensures Fits(files + [e]) && Body(files + [e]) == Body(files) + EntryBytes(e)
  {
    FitsSplit(files, e);
    var more := files + [e];
    if files == [] {
      assert more[1..] == [] && Body(more) == EntryBytes(e) + Body([]);
    } else {
      var rest := files[1..];
      assert more[0] == files[0] && more[1..] == rest + [e];
      BodyAppend(rest, e);
      Associate(EntryBytes(files[0]), Body(rest), EntryBytes(e));
    }
  }

  lemma Associate(a: Bytes, b: Bytes, c: Bytes)
    ensures a + (b + c) == a + b + c
  {
  }

  /** Writing five fields one after the other is writing their concatenation. */
  lemma FiveWrites(f: Bytes, a: Bytes, b: Bytes, c: Bytes, d: Bytes, e: Bytes)
    ensures f + a + b + c + d + e == f + (a + b + c + d + e)
  {
  }

  /** A length that does not fit in four bytes raises an error. */
  method WriteMetadata(p: Package) returns (r: Result<Bytes, string>)
    ensures r.Ok? <==> Fits(p.files)
    ensures r.Ok? ==> r.value == Encode(p)
  {
    var f := MAGIC;
    for i := 0 to |p.files|
      invariant Fits(p.files[..i]) && f == MAGIC + Body(p.files[..i])
    {
      var e := p.files[i];
      if |e.path| >= U32 || |e.data| >= U32 {
        assert e in p.files;
        return Err("int too big to convert");
      }
      f := WriteEntry(f, e);
      BodyAppend(p.files[..i], e);
      Associate(MAGIC, Body(p.files[..i]), EntryBytes(e));
      assert p.files[..i + 1] == p.files[..i] + [e];
    }
    assert p.files[..|p.files|] == p.files;
    f := f + MAGIC;
    f := f + p.exe;
    return Ok(f);
  }

  method WriteEntry(f0: Bytes, e: Entry) returns (f: Bytes)
    requires |e.path| < U32 && |e.data| < U32
    ensures f == f0 + EntryBytes(e)
  {
    f := f0;
    f := f + BigEndian(|e.path|);
    f := f + e.path;
    f := f + BigEndian(|e.data|);
    f := f + e.data;
    f := f + e.md5;
    FiveWrites(f0, BigEndian(|e.path|), e.path, BigEndian(|e.data|), e.data, e.md5);
  }

  // ---------------------------------------------------------------- the reader

  /** The first `n` bytes and the rest. */
  function Take(b: Bytes, n: nat): Option<(Bytes, Bytes)> {
    if n <= |b| then Some((b[..n], b[n..])) else None
  }

  /** A length and that many bytes. */
  function TakeCounted(b: Bytes): Option<(Bytes, Bytes)> {
    if |b| < LENGTH then None else Take(b[LENGTH..], FromBigEndian(b[..LENGTH]))
  }

  function TakeEntry(b: Bytes): (r: Option<(Entry, Bytes)>)
    ensures r.Some? ==> |r.value.1| < |b|
  {
    match TakeCounted(b)
    case None => None
    case Some((path, b1)) =>
      match TakeCounted(b1)
      case None => None
      case Some((data, b2)) =>
        match Take(b2, MD5_LENGTH)
        case None => None
        case Some((md5, b3)) => Some((Entry(path, data, md5), b3))
  }

  function Prepend(files: seq<Entry>, r: Option<Package>): Option<Package> {
    if r.None? then None else Some(Package(files + r.value.files, r.value.exe))
  }

  lemma PrependNothing(r: Option<Package>)
    ensures Prepend([], r) == r
  {
    if r.Some? { assert [] + r.value.files == r.value.files; }
  }

  lemma PrependTwice(a: seq<Entry>, b: seq<Entry>, r: Option<Package>)
    ensures Prepend(a, Prepend(b, r)) == Prepend(a + b, r)
  {
    if r.Some? { assert a + (b + r.value.files) == a + b + r.value.files; }
  }

  /** Entries up to the marker, which is looked for in the next `width` bytes. */
  function ReadBody(b: Bytes, width: nat): Option<Package>
    decreases |b|
  {
    if width > |b| then None
    else if b[..width] == MAGIC then Some(Package([], b[width..]))
    else
      match TakeEntry(b)
      case None => None
      case Some((e, rest)) =>
        Prepend([e], ReadBody(rest, width))
  }

  function Read(b: Bytes, width: nat): Option<Package> {
    if |b| <= width || b[..width] != MAGIC then None else ReadBody(b[width..], width)
  }

  /** The reader as written: the marker, then a loop over positions in the whole file. */
  method BinaryReaderRead(bin: Bytes, width: nat) returns (r: Option<Package>)
    ensures r == Read(bin, width)
  {
    if |bin| <= width || bin[..width] != MAGIC {
      return None;
    }
    r := ReadEntries(bin, width, width, ReadBody(bin[width..], width));
  }

  /** `all` is what is there to be read. */
  method ReadEntries(bin: Bytes, start: nat, width: nat, ghost all: Option<Package>) returns (r: Option<Package>)
    requires start <= |bin| && all == ReadBody(bin[start..], width)
    ensures r == all
  {
    var base := start;
    var parsed: seq<Entry> := [];
    ghost var rest := bin[start..];
    PrependNothing(all);
    while true
      invariant base <= |bin| && rest == bin[base..] && Reading(all, parsed, rest, width)
      decreases |bin| - base
    {
      ReadingEnds(all, parsed, rest, width);
      if base + width > |bin| {
        return None;
      }
      Window(bin, base, width);
      if bin[base..base + width] == MAGIC {
        return Some(Package(parsed, bin[base + width..]));
      }
      var next, offset := ReadEntry(bin, base);
      if next.None? {
        return None;
      }
      ReadsOn(all, parsed, rest, width, next.value.0, next.value.1);
      parsed := parsed + [next.value.0];
      base := base + offset;
      rest := next.value.1;
    }
  }

  /** Part way through: `parsed` entries are read, and `rest` is to be read. */
  ghost predicate Reading(all: Option<Package>, parsed: seq<Entry>, rest: Bytes, width: nat) {
    all == Prepend(parsed, ReadBody(rest, width))
  }

  /** How reading ends: at the marker, or without a package. */
  lemma {:induction false} ReadingEnds(all: Option<Package>, parsed: seq<Entry>, b: Bytes, width: nat)
    requires Reading(all, parsed, b, width)
    ensures width > |b| ==> all == None
    ensures width <= |b| && b[..width] == MAGIC ==> all == Some(Package(parsed, b[width..]))
    ensures width <= |b| && b[..width] != MAGIC && TakeEntry(b) == None ==> all == None
  {
    assert parsed + [] == parsed;
  }

  lemma Window(bin: Bytes, base: nat, width: nat)
    requires base + width <= |bin|
    ensures bin[base..][..width] == bin[base..base + width] && bin[base..][width..] == bin[base + width..]
  {
  }

  /** One entry moves from what is to be read to what has been. */
  lemma {:induction false} ReadsOn(all: Option<Package>, parsed: seq<Entry>, b: Bytes, width: nat, e: Entry,
                                   rest: Bytes)
    requires Reading(all, parsed, b, width)
    requires width <= |b| && b[..width] != MAGIC && TakeEntry(b) == Some((e, rest))
    ensures Reading(all, parsed + [e], rest, width)
  {
    PrependTwice(parsed, [e], ReadBody(rest, width));
  }

  /** A field that comes with its length, at offset `offset`, and the offset after it. */
  method ReadCounted(bin: Bytes, base: nat, offset: nat) returns (r: Option<(Bytes, nat)>)
    requires base + offset <= |bin|
    ensures r.None? <==> TakeCounted(bin[base + offset..]).None?
    ensures r.Some? ==>
              && offset < r.value.1 && base + r.value.1 <= |bin|
              && TakeCounted(bin[base + offset..]) == Some((r.value.0, bin[base + r.value.1..]))
  {
    CountedAt(bin, base + offset);
    if base + offset + LENGTH > |bin| {
      return None;
    }
    var length := FromBigEndian(bin[base + offset..base + offset + LENGTH]);
    var next := offset + LENGTH;
    if base + next + length > |bin| {
      return None;
    }
    return Some((bin[base + next..base + next + length], next + length));
  }

  /** One turn of the loop: the entry at `base` and what follows it, and how many bytes it takes. */
  method ReadEntry(bin: Bytes, base: nat) returns (next: Option<(Entry, Bytes)>, offset: nat)
    requires base <= |bin|
    ensures next == TakeEntry(bin[base..])
    ensures next.Some? ==> 0 < offset <= |bin| - base && next.value.1 == bin[base + offset..]
  {
    ghost var b := bin[base..];
    next, offset := None, 0;
    var path := ReadCounted(bin, base, 0);
    if path.None? {
      NoEntry(b);
      return;
    }
    var raw := ReadCounted(bin, base, path.value.1);
    if raw.None? {
      NoEntry(b);
      return;
    }
    offset := raw.value.1;
    TakeAt(bin, base + offset, MD5_LENGTH);
    if base + offset + MD5_LENGTH > |bin| {
      NoEntry(b);
      return;
    }
    var md5 := bin[base + offset..base + offset + MD5_LENGTH];
    var end := offset + MD5_LENGTH;
    AnEntry(b, path.value.0, bin[base + path.value.1..], raw.value.0, bin[base + offset..], md5, bin[base + end..]);
    next, offset := Some((Entry(path.value.0, raw.value.0, md5), bin[base + end..])), end;
  }

  /** An entry is its three fields, and there is none if one is missing. */
  lemma AnEntry(b: Bytes, path: Bytes, b1: Bytes, data: Bytes, b2: Bytes, md5: Bytes, b3: Bytes)
    requires TakeCounted(b) == Some((path, b1)) && TakeCounted(b1) == Some((data, b2))
    requires Take(b2, MD5_LENGTH) == Some((md5, b3))
    ensures TakeEntry(b) == Some((Entry(path, data, md5), b3))
  {
  }

  predicate NoFields(b: Bytes) {
    match TakeCounted(b)
    case None => true
    case Some((_, b1)) =>
      match TakeCounted(b1)
      case None => true
      case Some((_, b2)) => Take(b2, MD5_LENGTH).None?
  }

  lemma NoEntry(b: Bytes)
    requires NoFields(b)
    ensures TakeEntry(b) == None
  {
  }

  /** Taking bytes from a suffix is taking them at a position. */
  lemma TakeAt(bin: Bytes, at: nat, n: nat)
    requires at <= |bin|
    ensures Take(bin[at..], n) == if at + n > |bin| then None else Some((bin[at..at + n], bin[at + n..]))
  {
    if at + n <= |bin| { assert bin[at..][..n] == bin[at..at + n] && bin[at..][n..] == bin[at + n..]; }
  }

  lemma CountedAt(bin: Bytes, at: nat)
    requires at <= |bin|
    ensures TakeCounted(bin[at..]) ==
      if at + LENGTH > |bin| then None
      else
        var n := FromBigEndian(bin[at..at + LENGTH]);
        if at + LENGTH + n > |bin| then None
        else Some((bin[at + LENGTH..at + LENGTH + n], bin[at + LENGTH + n..]))
  {
    if at + LENGTH <= |bin| {
      assert bin[at..][..LENGTH] == bin[at..at + LENGTH] && bin[at..][LENGTH..] == bin[at + LENGTH..];
      TakeAt(bin, at + LENGTH, FromBigEndian(bin[at..at + LENGTH]));
    }
  }

  // ---------------------------------------------------------------- reading what was written

  /** With the shipped width the reader rejects every file: eight bytes are never the marker. */
  lemma ShippedReaderRejectsAll(bin: Bytes)
    ensures Read(bin, IDENTIFIER_LENGTH) == None
  {
  }

  /** An entry that starts like the marker: its path length is the big-endian value of "hopt"
      and its path starts with "odesk". */
  predicate Lookalike(e: Entry) {
    |e.path| == 0x686f7074 && e.path[..5] == MAGIC[4..]
  }

  lemma LookalikeBytes(e: Entry, tail: Bytes)
    requires |e.path| < U32 && |e.data| < U32 && |e.md5| == 32
    ensures |EntryBytes(e) + tail| >= |MAGIC|
    ensures (EntryBytes(e) + tail)[..|MAGIC|] == MAGIC <==> Lookalike(e)
  {
    var b := EntryBytes(e) + tail;
    LengthRoundTrip(|e.path|);
    assert b[..4] == BigEndian(|e.path|);
    assert MAGIC[..4] == BigEndian(0x686f7074);
    if b[..|MAGIC|] == MAGIC {
      assert b[..4] == b[..|MAGIC|][..4] == MAGIC[..4];
      assert FromBigEndian(MAGIC[..4]) == 0x686f7074;
      assert b[4..9] == e.path[..5];
      assert b[..|MAGIC|][4..] == b[4..9];
    }
    if Lookalike(e) {
      assert b[..|MAGIC|] == BigEndian(|e.path|) + e.path[..5];
      assert MAGIC == MAGIC[..4] + MAGIC[4..];
    }
  }

  lemma CountedRoundTrip(x: Bytes, tail: Bytes)
    requires |x| < U32
    ensures TakeCounted(BigEndian(|x|) + x + tail) == Some((x, tail))
  {
    LengthRoundTrip(|x|);
    var b := BigEndian(|x|) + x + tail;
    assert b[..LENGTH] == BigEndian(|x|) && b[LENGTH..] == x + tail;
  }

  lemma EntryRoundTrip(e: Entry, tail: Bytes)
    requires |e.path| < U32 && |e.data| < U32 && |e.md5| == 32
    ensures TakeEntry(EntryBytes(e) + tail) == Some((e, tail))
  {
    var b2 := e.md5 + tail;
    var b1 := BigEndian(|e.data|) + e.data + b2;
    EntryThenTail(e, tail);
    CountedRoundTrip(e.path, b1);
    CountedRoundTrip(e.data, b2);
    assert b2[..MD5_LENGTH] == e.md5 && b2[MD5_LENGTH..] == tail;
  }

  lemma EntryThenTail(e: Entry, tail: Bytes)
    requires |e.path| < U32 && |e.data| < U32
    ensures EntryBytes(e) + tail == BigEndian(|e.path|) + e.path + (BigEndian(|e.data|) + e.data + (e.md5 + tail))
  {
    var a, b, c, d := BigEndian(|e.path|), e.path, BigEndian(|e.data|), e.data;
    Regroup(a + b, c, d, e.md5, tail);
  }

  lemma Regroup(a: Bytes, b: Bytes, c: Bytes, d: Bytes, e: Bytes)
    ensures a + b + c + d + e == a + (b + c + (d + e))
  {
  }

  ghost predicate WellFormed(files: seq<Entry>) {
    Fits(files) && forall e :: e in files ==> |e.md5| == 32
  }

  ghost predicate NoLookalike(files: seq<Entry>) {
    forall e :: e in files ==> !Lookalike(e)
  }

  /** Reading stops at a look-alike and otherwise goes on after the entry. */
  lemma {:induction false} ReadsEntry(e: Entry, tail: Bytes)
    requires WellFormed([e])
    ensures |e.path| < U32 && |e.data| < U32
    ensures var b := EntryBytes(e) + tail;
      ReadBody(b, |MAGIC|) ==
        if Lookalike(e) then Some(Package([], b[|MAGIC|..])) else Prepend([e], ReadBody(tail, |MAGIC|))
  {
    assert e in [e];
    LookalikeBytes(e, tail);
    EntryRoundTrip(e, tail);
  }

  /** Either everything is read back, or reading stops at the first look-alike. */
  lemma {:induction false} ReadsBack(files: seq<Entry>, exe: Bytes)
    requires WellFormed(files)
    ensures var r := ReadBody(Body(files) + MAGIC + exe, |MAGIC|);
      if NoLookalike(files) then r == Some(Package(files, exe)) else r.Some? ==> |r.value.files| < |files|
  {
    var b := Body(files) + MAGIC + exe;
    if files == [] {
      assert b == MAGIC + exe && b[..|MAGIC|] == MAGIC && b[|MAGIC|..] == exe;
    } else {
      var e, rest := files[0], files[1..];
      SplitFiles(files);
      var tail := Body(rest) + MAGIC + exe;
      assert b == EntryBytes(e) + tail;
      ReadsEntry(e, tail);
      ReadsBack(rest, exe);
    }
  }

  lemma SplitFiles(files: seq<Entry>)
    requires WellFormed(files) && files != []
    ensures WellFormed([files[0]]) && WellFormed(files[1..]) && files == [files[0]] + files[1..]
    ensures NoLookalike(files) <==> !Lookalike(files[0]) && NoLookalike(files[1..])
  {
    assert files[0] in files && forall x :: x in files[1..] ==> x in files;
    assert forall x :: x in files ==> x == files[0] || x in files[1..];
  }

  /** The encoding is read back by a reader of a given marker width if and only if the width is
      that of the marker and no entry looks like it. */
  lemma RoundTripExactly(p: Package, width: nat)
    requires WellFormed(p.files)
    ensures Read(Encode(p), width) == Some(p) <==> width == |MAGIC| && NoLookalike(p.files)
  {
    var b := Encode(p);
    assert b == MAGIC + (Body(p.files) + MAGIC + p.exe);
    assert b[..|MAGIC|] == MAGIC && b[|MAGIC|..] == Body(p.files) + MAGIC + p.exe;
    ReadsBack(p.files, p.exe);
    if width <= |b| && b[..width] == MAGIC {
      assert |b[..width]| == width;
    }
  }

  /** So no two packages without look-alikes have the same encoding. */
  lemma UniquelyDecodable(p: Package, q: Package)
    requires WellFormed(p.files) && WellFormed(q.files)
    requires NoLookalike(p.files) && NoLookalike(q.files) && Encode(p) == Encode(q)
    ensures p == q
  {
    RoundTripExactly(p, |MAGIC|);
    RoundTripExactly(q, |MAGIC|);
  }
}
