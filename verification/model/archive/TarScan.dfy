/** The scan of the raw headers of a tar stream. */
module TarScan {
  import opened Bytes
  import opened Options
  import opened Pax

  const BLOCK: nat := 512

  const REGTYPE: byte := 0x30
  const AREGTYPE: byte := 0x00
  const LNKTYPE: byte := 0x31
  const SYMTYPE: byte := 0x32
  const CHRTYPE: byte := 0x33
  const BLKTYPE: byte := 0x34
  const DIRTYPE: byte := 0x35
  const FIFOTYPE: byte := 0x36
  const CONTTYPE: byte := 0x37
  const LONGNAME: byte := 0x4C
  const LONGLINK: byte := 0x4B
  const SPARSE: byte := 0x53
  const XHDTYPE: byte := 0x78
  const XGLTYPE: byte := 0x67
  const SOLARIS_XHDTYPE: byte := 0x58

  const EXTENSIONS: set<byte> := {LONGNAME, LONGLINK, XHDTYPE, XGLTYPE, SOLARIS_XHDTYPE}
  const PAX: set<byte> := {XHDTYPE, XGLTYPE, SOLARIS_XHDTYPE}
  const REGULAR: set<byte> := {REGTYPE, AREGTYPE, CONTTYPE, SPARSE}
  const RELEASE_TYPES: set<byte> := {REGTYPE, LONGNAME}
  const INPUT_TYPES: set<byte> := {REGTYPE, AREGTYPE, DIRTYPE, LONGNAME, XHDTYPE, XGLTYPE}

  const MAX_EXTENSION: nat := 65536
  const MAX_EXTENSION_TOTAL: nat := 1048576
  const MAX_GLOBAL: nat := 1024
  const MAX_RUN: nat := 4

  /** What tarfile's header parser makes of a block: the type it decides on and the declared size, or an error. */
  datatype Header = Header(kind: byte, size: int)
  type Decoder = bytes -> Option<Header>

  datatype Rules = Rules(limit: nat, types: set<byte>, maxBytes: Option<nat>)

  /** The counters of the scan. */
  datatype Tally = Tally(headers: nat, run: nat, total: nat, extension: nat, globalPax: nat)

  const START := Tally(0, 0, 0, 0, 0)

  // ---- the stream ----

  /** At most n bytes from position p on. */
  function Read(s: bytes, p: nat, n: nat): (b: bytes)
    ensures |b| <= n && (p + n <= |s| ==> |b| == n)
  {
    if p >= |s| then [] else if p + n <= |s| then s[p..p + n] else s[p..]
  }

  predicate AllZero(b: bytes) {
    forall i :: 0 <= i < |b| ==> b[i] == 0
  }

  /** A short or empty block ends the archive. */
  predicate Ends(block: bytes) {
    |block| < BLOCK || AllZero(block)
  }

  /** The bytes a size takes in whole blocks. */
  function Stored(size: nat): (stored: nat)
    ensures size <= stored < size + BLOCK
  {
    (size + BLOCK - 1) / BLOCK * BLOCK
  }

  // ---- one header ----

  predicate ForbiddenKey(key: bytes) {
    key == Ascii("size") || Ascii("GNU.sparse") <= key
  }

  /** The data of a pax header holds records only, none of which changes where a reader goes, and zero padding. */
  predicate PaxAllowed(data: bytes, size: nat)
    requires size <= |data|
  {
    && AllZero(data[size..])
    && match ParsePax(data[..size])
       case None => false
       case Some(entries) => forall i :: 0 <= i < |entries| ==> !ForbiddenKey(entries[i].key)
  }

  /** One round of the scan: the end, a refusal, or the next position; each with how far the stream was moved. */
  datatype Round = End(position: nat) | Refused(position: nat) | Advance(position: nat, tally: Tally)

  /** The round at a header that is an extension. */
  function InspectExtension(s: bytes, p: nat, header: Header, t: Tally): Round
    requires header.size >= 0
  {
    var stored, size := Stored(header.size), header.size as nat;
    var u := t.(run := t.run + 1, extension := t.extension + size,
                globalPax := t.globalPax + if header.kind == XGLTYPE then size else 0);
    if u.run > MAX_RUN || size > MAX_EXTENSION || u.extension > MAX_EXTENSION_TOTAL || u.globalPax > MAX_GLOBAL then
      Refused(p + BLOCK)
    else
      var data := Read(s, p + BLOCK, stored);
      if |data| != stored then Refused(p + BLOCK + |data|)
      else if header.kind in PAX && !PaxAllowed(data, size) then Refused(p + BLOCK + stored)
      else Advance(p + BLOCK + stored, u)
  }

  /** The round at the header of a member. */
  function InspectMember(p: nat, header: Header, rules: Rules, t: Tally): Round
    requires header.size >= 0
  {
    var u := t.(run := 0);
    if header.kind in REGULAR then
      var v := u.(total := u.total + header.size);
      if rules.maxBytes.Some? && v.total > rules.maxBytes.value then Refused(p + BLOCK)
      else Advance(p + BLOCK + Stored(header.size), v)
    else Advance(p + BLOCK, u)
  }

  function Inspect(s: bytes, decode: Decoder, rules: Rules, p: nat, t: Tally): Round {
    var block := Read(s, p, BLOCK);
    if Ends(block) then End(p + |block|)
    else
      var u := t.(headers := t.headers + 1);
      if u.headers > rules.limit then Refused(p + BLOCK)
      else
        match decode(block)
        case None => Refused(p + BLOCK)
        case Some(header) =>
          if header.kind !in rules.types || header.kind != block[156] || header.size < 0 then Refused(p + BLOCK)
          else if header.kind in EXTENSIONS then InspectExtension(s, p, header, u)
          else InspectMember(p, header, rules, u)
  }

  lemma InspectCounts(s: bytes, decode: Decoder, rules: Rules, p: nat, t: Tally)
    ensures Inspect(s, decode, rules, p, t).Advance? ==>
              var r := Inspect(s, decode, rules, p, t);
              p + BLOCK <= |s| && p + BLOCK <= r.position && r.tally.headers == t.headers + 1 <= rules.limit
  {
    hide PaxAllowed;
  }

  // ---- the whole scan ----

  /** The offsets of the headers of an accepted stream, or nothing. */
  function Headers(s: bytes, decode: Decoder, rules: Rules, p: nat, t: Tally): Option<seq<nat>>
    decreases rules.limit + 1 - t.headers
  {
    InspectCounts(s, decode, rules, p, t);
    match Inspect(s, decode, rules, p, t)
    case End(_) => Some([])
    case Refused(_) => None
    case Advance(q, u) =>
      match Headers(s, decode, rules, q, u)
      case None => None
      case Some(rest) => Some([p] + rest)
  }

  /** How far a scan may move the stream. */
  function Budget(rules: Rules): nat
    requires rules.maxBytes.Some?
  {
    BLOCK * (rules.limit + 1) + (BLOCK - 1) * rules.limit + MAX_EXTENSION_TOTAL + rules.maxBytes.value
  }

  /** The position never outruns what the counters admit. */
  ghost predicate InBudget(rules: Rules, p: nat, t: Tally) {
    && t.headers <= rules.limit && t.extension <= MAX_EXTENSION_TOTAL
    && (rules.maxBytes.Some? ==> t.total <= rules.maxBytes.value)
    && p <= (2 * BLOCK - 1) * t.headers + t.extension + t.total
  }

  lemma RoundInBudget(s: bytes, decode: Decoder, rules: Rules, p: nat, t: Tally)
    requires InBudget(rules, p, t)
    ensures var r := Inspect(s, decode, rules, p, t);
            && (rules.maxBytes.Some? ==> r.position <= Budget(rules))
            && (r.Advance? ==> InBudget(rules, r.position, r.tally))
  {
    hide PaxAllowed, Ends, Stored, Read;
  }

  /** The counters after a header, or a refusal; position is how far the stream was moved. */
  method ScanHeader(s: bytes, decode: Decoder, rules: Rules, block: bytes, from: nat, t: Tally)
    returns (r: Option<Tally>, position: nat)
    requires block == Read(s, from, BLOCK) && !Ends(block)
    ensures Inspect(s, decode, rules, from, t)
         == if r.Some? then Advance(position, r.value) else Refused(position)
  {
    hide PaxAllowed, AllZero, Stored, Read;
    var headers: nat, run: nat, total: nat, extension: nat, globalPax: nat :=
      t.headers, t.run, t.total, t.extension, t.globalPax;
    position := from + BLOCK;
    headers := headers + 1;
    if headers > rules.limit {
      return None, position;
    }
    var decoded := decode(block);
    if decoded.None? {
      return None, position;
    }
    var header := decoded.value;
    if header.kind !in rules.types || header.kind != block[156] || header.size < 0 {
      return None, position;
    }
    var stored := Stored(header.size);
    if header.kind in EXTENSIONS {
      run := run + 1;
      extension := extension + header.size;
      globalPax := globalPax + if header.kind == XGLTYPE then header.size else 0;
      if run > MAX_RUN || header.size > MAX_EXTENSION || extension > MAX_EXTENSION_TOTAL || globalPax > MAX_GLOBAL {
        return None, position;
      }
      var data := Read(s, position, stored);
      position := position + |data|;
      if |data| != stored || (header.kind in PAX && !PaxAllowed(data, header.size)) {
        return None, position;
      }
    } else {
      run := 0;
      if header.kind in REGULAR {
        total := total + header.size;
        if rules.maxBytes.Some? && total > rules.maxBytes.value {
          return None, position;
        }
        position := position + stored;
      }
    }
    return Some(Tally(headers, run, total, extension, globalPax)), position;
  }

  /** The scan agrees from here: none of the headers, or those seen and the rest. */
  ghost predicate Continues(s: bytes, decode: Decoder, rules: Rules, p: nat, t: Tally) {
    var all, rest := Headers(s, decode, rules, 0, START), Headers(s, decode, rules, p, t);
    (all.None? <==> rest.None?) && (all.Some? && rest.Some? ==> |all.value| == t.headers + |rest.value|)
  }

  lemma HeadersStep(s: bytes, decode: Decoder, rules: Rules, p: nat, t: Tally)
    requires Continues(s, decode, rules, p, t)
    ensures var r := Inspect(s, decode, rules, p, t);
            && (r.End? ==> Headers(s, decode, rules, 0, START).Some?
                           && |Headers(s, decode, rules, 0, START).value| == t.headers)
            && (r.Refused? ==> Headers(s, decode, rules, 0, START).None?)
            && (r.Advance? ==> Continues(s, decode, rules, r.position, r.tally))
  {
    hide Inspect;
    InspectCounts(s, decode, rules, p, t);
  }

  /**
   scan: the number of headers, for every stream and every budget. It never
   moves the stream past the budget, whether it accepts or refuses.
   */
  method Scan(s: bytes, decode: Decoder, rules: Rules) returns (r: Option<nat>, position: nat)
    ensures match Headers(s, decode, rules, 0, START)
            case None => r.None?
            case Some(offsets) => r == Some(|offsets|) && |offsets| <= rules.limit
    ensures rules.maxBytes.Some? ==> position <= Budget(rules)
  {
    hide Headers, Continues, InspectExtension, InspectMember;
    var t := START;
    position := 0;
    StartContinues(s, decode, rules);
    while true
      invariant InBudget(rules, position, t) && Continues(s, decode, rules, position, t)
      decreases rules.limit - t.headers
    {
      RoundInBudget(s, decode, rules, position, t);
      HeadersStep(s, decode, rules, position, t);
      InspectCounts(s, decode, rules, position, t);
      var block := Read(s, position, BLOCK);
      if Ends(block) {
        return Some(t.headers), position + |block|;
      }
      var next;
      next, position := ScanHeader(s, decode, rules, block, position, t);
      if next.None? {
        return None, position;
      }
      t := next.value;
    }
  }

  lemma StartContinues(s: bytes, decode: Decoder, rules: Rules)
    ensures Continues(s, decode, rules, 0, START)
  {
  }
}
