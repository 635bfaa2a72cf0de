/**
 A reader that recurses through extension headers, as tarfile does, and its
 agreement with the scan. It differs from the scan in six ways: it reads the
 header after an extension inside the call for the extension; it takes the old
 v7 directory form for a directory only outside such a call; it parses pax data
 loosely, up to a NUL in the padded block; it lets a pax size record move the
 next header; it skips the data of member types it does not know; and it reads
 on through the blocks of an old GNU sparse map.
 */
module TarReader {
  import opened Bytes
  import opened Options
  import opened Pax
  import opened TarScan

  /** The member types the reader knows, and the extensions it recurses through. */
  const READABLE: set<byte> := {
    REGTYPE, AREGTYPE, LNKTYPE, SYMTYPE, CHRTYPE, BLKTYPE, DIRTYPE, FIFOTYPE, CONTTYPE,
    LONGNAME, LONGLINK, XHDTYPE, XGLTYPE, SOLARIS_XHDTYPE
  }

  // ---- loose pax parsing ----

  /** The first '=' of a record. */
  function FirstEquals(s: bytes): (n: nat)
    ensures n <= |s| && (forall i :: 0 <= i < n ==> s[i] != EQUALS) && (n < |s| ==> s[n] == EQUALS)
  {
    if s == [] || s[0] == EQUALS then 0
    else
      assert forall i :: 0 < i < |s| ==> s[i] == s[1..][i - 1];
      1 + FirstEquals(s[1..])
  }

  /** A record of at least five bytes with a key, an '=' and a final newline; newlines inside do not matter. */
  function LooseRecordAt(data: bytes): (r: Option<Parsed>)
    ensures r.Some? ==> 0 < r.value.length <= |data|
  {
    var d := LeadingDigits(data);
    if d == 0 || d > 20 || d == |data| || data[d] != SPACE then None
    else
      var length := DecimalValue(data[..d]);
      if length < 5 || length > |data| || length - 1 < d + 1 then None
      else
        var body := data[d + 1..length - 1];
        var k := FirstEquals(body);
        if k == 0 || k == |body| || data[length - 1] != NEWLINE then None
        else Some(Parsed(length, Entry(body[..k], body[k + 1..])))
  }

  /** All records up to the end or a NUL. */
  function LooseParse(data: bytes): Option<seq<Entry>>
    decreases |data|
  {
    if data == [] || data[0] == 0 then Some([])
    else
      match LooseRecordAt(data)
      case None => None
      case Some(first) =>
        match LooseParse(data[first.length..])
        case None => None
        case Some(rest) => Some([first.entry] + rest)
  }

  lemma {:induction false} FirstEqualsIs(s: bytes, n: nat)
    requires n < |s| && s[n] == EQUALS && forall i :: 0 <= i < n ==> s[i] != EQUALS
    ensures FirstEquals(s) == n
  {
    if n > 0 {
      FirstEqualsIs(s[1..], n - 1);
    }
  }

  /** A strict record is a loose record, whatever follows it. */
  lemma RecordIsLoose(data: bytes, n: nat, e: Entry)
    requires 0 < n <= |data| && IsRecord(data[..n], e)
    ensures LooseRecordAt(data) == Some(Parsed(n, e))
  {
    hide IsRecord, Payload, Decimal, DecimalValue, LeadingDigits, FirstEquals;
    RecordParts(data, n, e);
    var d, k := |Decimal(n)|, |e.key|;
    LengthFound(data, n, e);
    var body := data[d + 1..n - 1];
    Within(data, d + 1, n - 1, 0, k);
    Within(data, d + 1, n - 1, k + 1, |body|);
    assert body[..k] == body[0..k] == e.key && body[k + 1..] == body[k + 1..|body|] == e.value;
    assert body[k] == data[d + k + 1] == EQUALS;
    KeyHasNoEquals(data[..n], e);
    assert forall i :: 0 <= i < k ==> body[i] == body[..k][i] == e.key[i];
    FirstEqualsIs(body, k);
  }

  lemma KeyHasNoEquals(r: bytes, e: Entry)
    requires IsRecord(r, e)
    ensures e.key != [] && forall i :: 0 <= i < |e.key| ==> e.key[i] != EQUALS
  {
  }

  lemma LengthFound(data: bytes, n: nat, e: Entry)
    requires 0 < n <= |data| && IsRecord(data[..n], e)
    ensures LeadingDigits(data) == |Decimal(n)| <= 9 && AllDigits(data[..|Decimal(n)|])
    ensures DecimalValue(data[..|Decimal(n)|]) == n
  {
    hide Payload, Decimal, DecimalValue, LeadingDigits, Pow10;
    RecordParts(data, n, e);
    DigitsEnd(data, |Decimal(n)|);
    DecimalRoundTrip(n);
    DecimalLength(n, 9);
    NinePowers();
  }

  /** What the strict parser accepts, the loose one reads the same way, zero padding included. */
  lemma {:induction false} LooseAgrees(data: bytes, entries: seq<Entry>, padding: bytes)
    requires IsPax(data, entries) && AllZero(padding)
    ensures LooseParse(data + padding) == Some(entries)
    decreases |data|
  {
    hide IsRecord, LooseRecordAt;
    if entries == [] {
      assert data + padding == padding;
    } else {
      var n :| 0 < n <= |data| && IsRecord(data[..n], entries[0]) && IsPax(data[n..], entries[1..]);
      var all := data + padding;
      assert all[..n] == data[..n] && all[n..] == data[n..] + padding;
      RecordIsLoose(all, n, entries[0]);
      RecordStarts(all, n, entries[0]);
      LooseAgrees(data[n..], entries[1..], padding);
      assert entries == [entries[0]] + entries[1..];
    }
  }

  lemma RecordStarts(data: bytes, n: nat, e: Entry)
    requires 0 < n <= |data| && IsRecord(data[..n], e)
    ensures data[0] != 0
  {
    hide Payload;
    RecordParts(data, n, e);
    assert data[0] == data[..|Decimal(n)|][0] == Decimal(n)[0];
  }

  // ---- the reader ----

  /** The pax records in force: the last value of each key. */
  type Settings = map<bytes, bytes>

  function Merge(settings: Settings, entries: seq<Entry>): Settings
    decreases |entries|
  {
    if entries == [] then settings else Merge(settings[entries[0].key := entries[0].value], entries[1..])
  }

  /** The size a pax record declares; anything that is no number counts as zero. */
  function SizeOf(value: bytes): nat {
    if value != [] && AllDigits(value) then DecimalValue(value) else 0
  }

  /** A sparse file keeps its map in its data, which this model does not follow. */
  predicate IsSparse(settings: Settings) {
    exists key :: key in settings && Ascii("GNU.sparse") <= key
  }

  /**
   One call of the reader: the headers it read, where the next call starts, where
   the member's data start, whether that data are skipped, how deep the call
   recursed, the global records after it, and whether it failed or went
   somewhere this model does not follow.
   */
  datatype Visit = Visit(
    offsets: seq<nat>, next: Option<nat>, data: nat, skips: bool, depth: nat, globals: Settings, lost: bool)

  function Nothing(p: nat, globals: Settings): Visit {
    Visit([], None, p, false, 0, globals, false)
  }

  /**
   Where the data of an old GNU sparse member start: its map goes on in further
   blocks for as long as each says so in its byte 504. A block too short to say
   fails the reader.
   */
  function MapEnd(s: bytes, q: nat): (end: Option<nat>)
    ensures end.Some? ==> end.value > q
    decreases |s| - q
  {
    var block := Read(s, q, BLOCK);
    if |block| <= 504 then None
    else if block[504] == 0 then Some(q + |block|)
    else MapEnd(s, q + BLOCK)
  }

  /** The member header's own step; byte 482 of a sparse header says whether its map goes on. */
  function VisitMember(s: bytes, p: nat, header: Header, globals: Settings): Visit
    requires header.size >= 0 && p + BLOCK <= |s|
  {
    var data := if header.kind == SPARSE && s[p + 482] != 0 then MapEnd(s, p + BLOCK) else Some(p + BLOCK);
    if data.None? then Visit([p], None, p, true, 1, globals, true)
    else
      var skips := header.kind in REGULAR || header.kind !in READABLE;
      var next := data.value + if skips then Stored(header.size) else 0;
      Visit([p], Some(next), data.value, skips, 1, globals, false)
  }

  /** The step at an extension header, once the member it belongs to has been read. */
  function AfterExtension(p: nat, kind: byte, settings: Settings, inner: Visit): Visit {
    var sparse := kind in PAX && IsSparse(settings);
    var v := inner.(offsets := [p] + inner.offsets, depth := inner.depth + 1, lost := inner.lost || sparse);
    if kind in {XHDTYPE, SOLARIS_XHDTYPE} && Ascii("size") in settings && inner.next.Some? then
      v.(next := Some(inner.data + if inner.skips then Stored(SizeOf(settings[Ascii("size")])) else 0))
    else v
  }

  /** The header here; an empty, short, unreadable or negative one ends the reading. */
  function HeaderAt(s: bytes, decode: Decoder, p: nat, dircheck: bool): (h: Option<Header>)
    ensures h.Some? ==> h.value.size >= 0 && p + BLOCK <= |s|
  {
    var block := Read(s, p, BLOCK);
    if Ends(block) then None
    else
      match decode(block)
      case None => None
      case Some(header) =>
        if header.size < 0 then None
        else if dircheck then Some(header)
        else Some(header.(kind := block[156]))
  }

  /** The pax records of a header, read loosely. */
  function EntriesAt(s: bytes, p: nat, header: Header): Option<seq<Entry>>
    requires header.size >= 0
  {
    if header.kind in PAX then LooseParse(Read(s, p + BLOCK, Stored(header.size))) else Some([])
  }

  /** One member: the header here and, through extension headers, the headers after it. */
  function Read1(s: bytes, decode: Decoder, p: nat, dircheck: bool, globals: Settings): Visit
    decreases |s| - p
  {
    match HeaderAt(s, decode, p, dircheck)
    case None => Nothing(p, globals)
    case Some(header) =>
      if header.kind !in EXTENSIONS then VisitMember(s, p, header, globals)
      else
        match EntriesAt(s, p, header)
        case None => Visit([p], None, p, false, 1, globals, false)
        case Some(entries) =>
          var settings := Merge(globals, entries);
          var q := p + BLOCK + Stored(header.size);
          var inner := Read1(s, decode, q, false, if header.kind == XGLTYPE then settings else globals);
          AfterExtension(p, header.kind, settings, inner)
  }

  lemma {:induction false} ReadMoves(s: bytes, decode: Decoder, p: nat, dircheck: bool, globals: Settings)
    ensures var v := Read1(s, decode, p, dircheck, globals);
            v.next.Some? ==> v.next.value >= p + BLOCK && p + BLOCK <= |s| && v.data >= p + BLOCK
    decreases |s| - p
  {
    hide HeaderAt, EntriesAt, Stored, Ascii, IsSparse, SizeOf, Merge;
    var h := HeaderAt(s, decode, p, dircheck);
    if h.Some? && h.value.kind in EXTENSIONS && EntriesAt(s, p, h.value).Some? {
      var settings := Merge(globals, EntriesAt(s, p, h.value).value);
      var q := p + BLOCK + Stored(h.value.size);
      ReadMoves(s, decode, q, false, if h.value.kind == XGLTYPE then settings else globals);
    }
  }

  /** All members: the headers read, the deepest recursion, and whether the reader got lost. */
  datatype Reading = Reading(offsets: seq<nat>, depth: nat, lost: bool)

  function ReadAll(s: bytes, decode: Decoder, p: nat, globals: Settings): Reading
    decreases |s| - p
  {
    var v := Read1(s, decode, p, true, globals);
    if v.next.None? || v.lost then Reading(v.offsets, v.depth, v.lost)
    else
      ReadMoves(s, decode, p, true, globals);
      var rest := ReadAll(s, decode, v.next.value, v.globals);
      Reading(v.offsets + rest.offsets, if v.depth > rest.depth then v.depth else rest.depth, rest.lost)
  }

  // ---- agreement ----

  /** No record in force moves the reader. */
  predicate Clean(settings: Settings) {
    forall key :: key in settings ==> !ForbiddenKey(key)
  }

  lemma {:induction false} MergeClean(settings: Settings, entries: seq<Entry>)
    requires Clean(settings) && forall i :: 0 <= i < |entries| ==> !ForbiddenKey(entries[i].key)
    ensures Clean(Merge(settings, entries))
    decreases |entries|
  {
    hide ForbiddenKey;
    if entries != [] {
      MergeClean(settings[entries[0].key := entries[0].value], entries[1..]);
    }
  }

  /** What the scan allows in a pax header, the loose parser reads as the same records. */
  lemma PaxReads(data: bytes, size: nat)
    requires size <= |data| && PaxAllowed(data, size)
    ensures LooseParse(data) == ParsePax(data[..size])
    ensures LooseParse(data).Some?
    ensures forall i :: 0 <= i < |LooseParse(data).value| ==> !ForbiddenKey(LooseParse(data).value[i].key)
  {
    hide ForbiddenKey, LooseParse, IsPax;
    var entries := ParsePax(data[..size]).value;
    ParsesExactlyPax(data[..size], entries);
    LooseAgrees(data[..size], entries, data[size..]);
    assert data[..size] + data[size..] == data;
  }

  lemma CleanMeans(settings: Settings)
    requires Clean(settings)
    ensures Ascii("size") !in settings && !IsSparse(settings)
  {
    hide Ascii;
  }

  /** Where the scan goes on, the reader sees the same header. */
  lemma SameHeader(s: bytes, decode: Decoder, rules: Rules, p: nat, t: Tally, dircheck: bool)
    ensures var r := Inspect(s, decode, rules, p, t);
            && (r.End? ==> HeaderAt(s, decode, p, dircheck).None?)
            && (r.Advance? ==>
                  && HeaderAt(s, decode, p, dircheck).Some?
                  && var header := HeaderAt(s, decode, p, dircheck).value;
                     && header.kind in rules.types
                     && var u := t.(headers := t.headers + 1);
                        r == if header.kind in EXTENSIONS then InspectExtension(s, p, header, u)
                             else InspectMember(p, header, rules, u))
  {
    hide PaxAllowed, Stored, Read, AllZero;
  }

  /** At an extension the scan passes, the reader reads clean records and goes on at the same place. */
  lemma ExtensionAgrees(s: bytes, p: nat, header: Header, t: Tally, globals: Settings)
    requires header.size >= 0 && header.kind in EXTENSIONS && Clean(globals)
    requires InspectExtension(s, p, header, t).Advance?
    ensures EntriesAt(s, p, header).Some? && Clean(Merge(globals, EntriesAt(s, p, header).value))
    ensures var r := InspectExtension(s, p, header, t);
            r.position == p + BLOCK + Stored(header.size) && r.tally.run == t.run + 1 <= MAX_RUN
            && r.tally.headers == t.headers
  {
    hide PaxAllowed, LooseParse, ForbiddenKey, Stored, Read;
    if header.kind in PAX {
      PaxReads(Read(s, p + BLOCK, Stored(header.size)), header.size);
      MergeClean(globals, EntriesAt(s, p, header).value);
    } else {
      assert Merge(globals, []) == globals;
    }
  }

  /** One member of an accepted stream: the reader reads the headers the scan counts, in order, and no others. */
  lemma {:induction false} MemberAgrees(
    s: bytes, decode: Decoder, rules: Rules, p: nat, t: Tally, dircheck: bool, globals: Settings)
    returns (u: Tally)
    requires rules.types <= READABLE && Clean(globals) && t.run <= MAX_RUN
    requires Headers(s, decode, rules, p, t).Some?
    ensures var v := Read1(s, decode, p, dircheck, globals);
            !v.lost && Clean(v.globals) && v.depth <= MAX_RUN + 1 - t.run
    ensures var v := Read1(s, decode, p, dircheck, globals);
            var offsets := Headers(s, decode, rules, p, t).value;
            && v.offsets <= offsets
            && (v.next.None? ==> v.offsets == offsets)
            && (v.next.Some? ==>
                  u.run == 0 && Headers(s, decode, rules, v.next.value, u) == Some(offsets[|v.offsets|..]))
    decreases rules.limit + 1 - t.headers
  {
    hide HeaderAt, EntriesAt, Inspect, InspectExtension, PaxAllowed, Stored, Merge, Ascii, IsSparse, Clean, Read;
    var r := Inspect(s, decode, rules, p, t);
    u := t;
    SameHeader(s, decode, rules, p, t, dircheck);
    if r.Advance? {
      InspectCounts(s, decode, rules, p, t);
      var header := HeaderAt(s, decode, p, dircheck).value;
      u := r.tally;
      if header.kind in EXTENSIONS {
        ExtensionAgrees(s, p, header, t.(headers := t.headers + 1), globals);
        var settings := Merge(globals, EntriesAt(s, p, header).value);
        CleanMeans(settings);
        var inForce := if header.kind == XGLTYPE then settings else globals;
        u := MemberAgrees(s, decode, rules, r.position, r.tally, false, inForce);
        var rest := Headers(s, decode, rules, r.position, r.tally).value;
        var inner := Read1(s, decode, r.position, false, inForce);
        assert ([p] + rest)[|[p] + inner.offsets|..] == rest[|inner.offsets|..];
      } else {
        var rest := Headers(s, decode, rules, r.position, r.tally).value;
        assert ([p] + rest)[1..] == rest;
      }
    }
  }

  /**
   On every stream the scan accepts for types the reader knows, the reader reads
   exactly the headers the scan counted, and never recurses deeper than the
   longest run of extension headers and the member after it.
   */
  lemma {:induction false} ReaderAgrees(
    s: bytes, decode: Decoder, rules: Rules, p: nat, t: Tally, globals: Settings)
    requires rules.types <= READABLE && Clean(globals) && t.run == 0
    requires Headers(s, decode, rules, p, t).Some?
    ensures var r := ReadAll(s, decode, p, globals);
            !r.lost && r.offsets == Headers(s, decode, rules, p, t).value && r.depth <= MAX_RUN + 1
    decreases |s| - p
  {
    hide Headers, Read1, Clean;
    var offsets := Headers(s, decode, rules, p, t).value;
    var u := MemberAgrees(s, decode, rules, p, t, true, globals);
    var v := Read1(s, decode, p, true, globals);
    if v.next.Some? {
      ReadMoves(s, decode, p, true, globals);
      ReaderAgrees(s, decode, rules, v.next.value, u, v.globals);
      assert v.offsets + offsets[|v.offsets|..] == offsets;
    }
  }

  /** Both callers allow only types the reader knows. */
  lemma CallersReadable()
    ensures RELEASE_TYPES <= READABLE && INPUT_TYPES <= READABLE
  {
  }

  /** The scan and the reader go the same way on every stream the scan accepts, and the recursion is bounded. */
  ghost predicate AgreesOn(types: set<byte>) {
    forall s: bytes, decode: Decoder, limit: nat, maxBytes: Option<nat> ::
      var offsets := Headers(s, decode, Rules(limit, types, maxBytes), 0, START);
      offsets.Some? ==> Follows(ReadAll(s, decode, 0, map[]), offsets.value)
  }

  predicate Follows(r: Reading, offsets: seq<nat>) {
    !r.lost && r.offsets == offsets && r.depth <= MAX_RUN + 1
  }

  /**
   The two agree for exactly the sets of types the reader knows and follows as
   the scan does. Any other type has a stream of two blocks on which they visit
   different headers: the scan counts the second block as a header, and the
   reader skips it as data or reads it as more of a sparse map.
   */
  lemma AgreesExactlyOnReadable(types: set<byte>)
    ensures AgreesOn(types) <==> types <= READABLE
  {
    if types <= READABLE {
      forall s, decode, limit, maxBytes | Headers(s, decode, Rules(limit, types, maxBytes), 0, START).Some?
        ensures Follows(ReadAll(s, decode, 0, map[]), Headers(s, decode, Rules(limit, types, maxBytes), 0, START).value)
      {
        ReaderAgrees(s, decode, Rules(limit, types, maxBytes), 0, START, map[]);
      }
    } else {
      var kind :| kind in types && kind !in READABLE;
      if kind == SPARSE {
        SparseParts(types);
      } else {
        UnknownParts(types, kind);
      }
    }
  }

  /** Two blocks full of one byte; the last 8 of them are zero. */
  function Repeated(kind: byte): (s: bytes)
    ensures |s| == 1024 && forall i :: 0 <= i < |s| ==> s[i] == if i < 1016 then kind else 0
  {
    seq(1024, i => if i < 1016 then kind else 0)
  }

  /** A decoder that sees the same header everywhere. */
  function Always(kind: byte, size: nat): Decoder {
    _ => Some(Header(kind, size))
  }

  /** The scan counts two headers, and the reader reads one, without failing. */
  predicate PartOn(types: set<byte>, s: bytes, decode: Decoder) {
    && Headers(s, decode, Rules(2, types, None), 0, START) == Some([0, 512])
    && ReadAll(s, decode, 0, map[]).offsets == [0] && !ReadAll(s, decode, 0, map[]).lost
  }

  lemma BlocksAt(kind: byte)
    ensures var s := Repeated(kind);
            && Read(s, 0, BLOCK) == s[0..512] && Read(s, 512, BLOCK) == s[512..1024]
            && Read(s, 0, BLOCK)[156] == kind && Read(s, 512, BLOCK)[156] == kind
            && Read(s, 512, BLOCK)[504] == 0 && Read(s, 1024, BLOCK) == []
            && (kind != 0 ==> !Ends(Read(s, 0, BLOCK)) && !Ends(Read(s, 512, BLOCK)))
  {
  }

  /** Old GNU sparse: the reader takes the second block for more of the map. */
  lemma SparseParts(types: set<byte>)
    requires SPARSE in types
    ensures PartOn(types, Repeated(SPARSE), Always(SPARSE, 0)) && !AgreesOn(types)
  {
    var s, decode, rules := Repeated(SPARSE), Always(SPARSE, 0), Rules(2, types, None);
    BlocksAt(SPARSE);
    assert Stored(0) == 0;
    assert Inspect(s, decode, rules, 0, START) == Advance(512, Tally(1, 0, 0, 0, 0));
    assert Inspect(s, decode, rules, 512, Tally(1, 0, 0, 0, 0)) == Advance(1024, Tally(2, 0, 0, 0, 0));
    TwoHeaders(s, decode, rules, Tally(1, 0, 0, 0, 0), Tally(2, 0, 0, 0, 0));
    assert MapEnd(s, 512) == Some(1024);
    assert Read1(s, decode, 0, true, map[]) == Visit([0], Some(1024), 1024, true, 1, map[], false);
    OneHeader(s, decode);
  }

  /** A type the reader does not know: it skips the second block as data, which the scan does not see as data. */
  lemma UnknownParts(types: set<byte>, kind: byte)
    requires kind in types && kind !in READABLE && kind != SPARSE
    ensures PartOn(types, Repeated(kind), Always(kind, 512)) && !AgreesOn(types)
  {
    var s, decode, rules := Repeated(kind), Always(kind, 512), Rules(2, types, None);
    BlocksAt(kind);
    assert Stored(512) == 512;
    assert Inspect(s, decode, rules, 0, START) == Advance(512, Tally(1, 0, 0, 0, 0));
    assert Inspect(s, decode, rules, 512, Tally(1, 0, 0, 0, 0)) == Advance(1024, Tally(2, 0, 0, 0, 0));
    TwoHeaders(s, decode, rules, Tally(1, 0, 0, 0, 0), Tally(2, 0, 0, 0, 0));
    assert Read1(s, decode, 0, true, map[]) == Visit([0], Some(1024), 512, true, 1, map[], false);
    OneHeader(s, decode);
  }

  lemma TwoHeaders(s: bytes, decode: Decoder, rules: Rules, t: Tally, u: Tally)
    requires Read(s, 1024, BLOCK) == [] && Inspect(s, decode, rules, 0, START) == Advance(512, t)
    requires Inspect(s, decode, rules, 512, t) == Advance(1024, u)
    ensures Headers(s, decode, rules, 0, START) == Some([0, 512])
  {
    assert Inspect(s, decode, rules, 1024, u) == End(1024);
    assert Headers(s, decode, rules, 1024, u) == Some([]);
    assert Headers(s, decode, rules, 512, t) == Some([512] + []);
    assert [0] + ([512] + []) == [0, 512];
  }

  lemma OneHeader(s: bytes, decode: Decoder)
    requires |s| == 1024 && Read(s, 1024, BLOCK) == []
    requires Read1(s, decode, 0, true, map[]).offsets == [0] && Read1(s, decode, 0, true, map[]).next == Some(1024)
    requires !Read1(s, decode, 0, true, map[]).lost && Read1(s, decode, 0, true, map[]).globals == map[]
    ensures ReadAll(s, decode, 0, map[]).offsets == [0] && !ReadAll(s, decode, 0, map[]).lost
  {
    assert Read1(s, decode, 1024, true, map[]) == Nothing(1024, map[]);
    assert ReadAll(s, decode, 1024, map[]) == Reading([], 0, false);
    assert [0] + [] == [0];
  }
}
