/** Pax extended header records (the pax utility of IEEE Std 1003.1), parsed strictly. */
module Pax {
  import opened Bytes
  import opened Options
  import Sequences

  const SPACE: byte := 0x20
  const EQUALS: byte := 0x3D
  const NEWLINE: byte := 0x0A

  /** A record is shorter than this: its length has at most nine digits. */
  const RECORD_LIMIT: nat := 1_000_000_000

  datatype Entry = Entry(key: bytes, value: bytes)

  predicate ValidKey(key: bytes) {
    key != [] && forall i :: 0 <= i < |key| ==> key[i] != EQUALS && key[i] != NEWLINE
  }

  predicate NoNewline(s: bytes) {
    forall i :: 0 <= i < |s| ==> s[i] != NEWLINE
  }

  predicate ValidEntry(e: Entry) {
    ValidKey(e.key) && NoNewline(e.value)
  }

  /** A record after its length. */
  function Payload(e: Entry): bytes {
    [SPACE] + e.key + [EQUALS] + e.value + [NEWLINE]
  }

  /** A record: its length in decimal, its own digits counted, and the entry. */
  predicate IsRecord(r: bytes, e: Entry) {
    ValidEntry(e) && |r| < RECORD_LIMIT && r == Decimal(|r|) + Payload(e)
  }

  /** Pax data is a concatenation of records. */
  ghost predicate IsPax(data: bytes, entries: seq<Entry>) {
    if entries == [] then data == []
    else exists n :: 0 < n <= |data| && IsRecord(data[..n], entries[0]) && IsPax(data[n..], entries[1..])
  }

  // ---- one record ----

  /** The longest prefix without '=' and newline. */
  function KeySpan(s: bytes): (n: nat)
    ensures n <= |s|
    ensures forall i :: 0 <= i < n ==> s[i] != EQUALS && s[i] != NEWLINE
    ensures n < |s| ==> s[n] == EQUALS || s[n] == NEWLINE
  {
    if s == [] || s[0] == EQUALS || s[0] == NEWLINE then 0
    else
      assert forall i :: 0 < i < |s| ==> s[i] == s[1..][i - 1];
      1 + KeySpan(s[1..])
  }

  datatype Parsed = Parsed(length: nat, entry: Entry)

  /** The record at the front: what the pattern and the two tests on its end admit. */
  function RecordAt(data: bytes): (r: Option<Parsed>)
    ensures r.Some? ==> 0 < r.value.length <= |data|
  {
    var d := LeadingDigits(data);
    if d == 0 || d > 9 || data[0] == 0x30 || d == |data| || data[d] != SPACE then None
    else
      var k := KeySpan(data[d + 1..]);
      var start := d + k + 2;
      var end := DecimalValue(data[..d]);
      if k == 0 || start > |data| || data[start - 1] != EQUALS then None
      else if end == 0 || end > |data| || data[end - 1] != NEWLINE then None
      else if end - 1 < start || !NoNewline(data[start..end - 1]) then None
      else Some(Parsed(end, Entry(data[d + 1..start - 1], data[start..end - 1])))
  }

  lemma {:induction false} SpanIs(s: bytes, n: nat)
    requires n < |s| && (s[n] == EQUALS || s[n] == NEWLINE)
    requires forall i :: 0 <= i < n ==> s[i] != EQUALS && s[i] != NEWLINE
    ensures KeySpan(s) == n
  {
    if n > 0 {
      SpanIs(s[1..], n - 1);
    }
  }

  lemma {:induction false} DigitsEnd(s: bytes, n: nat)
    requires n < |s| && AllDigits(s[..n]) && !IsDigit(s[n])
    ensures LeadingDigits(s) == n
  {
    if n > 0 {
      assert IsDigit(s[..n][0]);
      assert s[1..][..n - 1] == s[..n][1..];
      DigitsEnd(s[1..], n - 1);
    }
  }

  /** Where the parts of a payload are. */
  lemma PayloadParts(e: Entry)
    ensures var p, k := Payload(e), |e.key|;
            && |p| == k + |e.value| + 3 && p[0] == SPACE && p[k + 1] == EQUALS && p[|p| - 1] == NEWLINE
            && p[1..k + 1] == e.key && p[k + 2..|p| - 1] == e.value
  {
    var front := [SPACE] + e.key + [EQUALS];
    Halves(front + e.value + [NEWLINE], front + e.value, [NEWLINE]);
    Halves(front + e.value, front, e.value);
    assert Payload(e)[|front|..|front| + |e.value|] == e.value;
    assert Payload(e)[..|front|] == front;
    assert front[1..|e.key| + 1] == e.key;
  }

  lemma Halves(s: bytes, a: bytes, b: bytes)
    requires s == a + b
    ensures s[..|a|] == a && s[|a|..] == b
  {
  }

  lemma Within(data: bytes, from: nat, to: nat, a: nat, b: nat)
    requires from <= to <= |data| && a <= b <= to - from
    ensures data[from..to][a..b] == data[from + a..from + b]
  {
    var x, y := data[from..to][a..b], data[from + a..from + b];
    assert |x| == |y| && forall i :: 0 <= i < |x| ==> x[i] == data[from + a + i] == y[i];
  }

  /** Where the parts of a record at the front of the data are. */
  lemma RecordParts(data: bytes, n: nat, e: Entry)
    requires 0 < n <= |data| && IsRecord(data[..n], e)
    ensures var d, start := |Decimal(n)|, |Decimal(n)| + |e.key| + 2;
            && d + |Payload(e)| == n && start <= n - 1
            && data[..d] == Decimal(n) && data[d] == SPACE && data[start - 1] == EQUALS && data[n - 1] == NEWLINE
            && data[d + 1..start - 1] == e.key && data[start..n - 1] == e.value
  {
    var r, p, d := data[..n], Payload(e), |Decimal(n)|;
    PayloadParts(e);
    hide Payload, Decimal;
    Halves(r, Decimal(n), p);
    assert data[d..n] == p by {
      assert r[d..] == data[d..n];
    }
    assert data[..d] == r[..d];
    Within(data, d, n, 1, |e.key| + 1);
    Within(data, d, n, |e.key| + 2, |p| - 1);
    assert data[d] == p[0] && data[d + |e.key| + 1] == p[|e.key| + 1] && data[n - 1] == p[|p| - 1];
  }

  /** A record at the front is what RecordAt finds. */
  lemma RecordFound(data: bytes, n: nat, e: Entry)
    requires 0 < n <= |data| && IsRecord(data[..n], e)
    ensures RecordAt(data) == Some(Parsed(n, e))
  {
    hide Payload, Decimal, DecimalValue, LeadingDigits, Pow10;
    RecordParts(data, n, e);
    var d := |Decimal(n)|;
    DigitsEnd(data, d);
    DecimalRoundTrip(n);
    DecimalLength(n, 9);
    NinePowers();
    assert data[0] == data[..d][0] == Decimal(n)[0];
    KeyFound(data, d + 1, e.key);
  }

  lemma KeyFound(data: bytes, from: nat, key: bytes)
    requires from + |key| < |data| && data[from..from + |key|] == key && ValidKey(key)
    requires data[from + |key|] == EQUALS
    ensures KeySpan(data[from..]) == |key|
  {
    var tail := data[from..];
    forall i | 0 <= i < |key| ensures tail[i] == key[i] {
      assert tail[i] == data[from..from + |key|][i];
    }
    SpanIs(tail, |key|);
  }

  lemma NinePowers()
    ensures Pow10(9) == RECORD_LIMIT
  {
    assert Pow10(3) == 10 * Pow10(2) && Pow10(2) == 10 * Pow10(1) && Pow10(1) == 10 * Pow10(0);
    assert Pow10(6) == 10 * Pow10(5) && Pow10(5) == 10 * Pow10(4) && Pow10(4) == 10 * Pow10(3);
    assert Pow10(9) == 10 * Pow10(8) && Pow10(8) == 10 * Pow10(7) && Pow10(7) == 10 * Pow10(6);
  }

  lemma PayloadOf(s: bytes, k: nat)
    requires k + 2 < |s| && s[0] == SPACE && s[k + 1] == EQUALS && s[|s| - 1] == NEWLINE
    ensures Payload(Entry(s[1..k + 1], s[k + 2..|s| - 1])) == s
  {
  }

  lemma KeyAt(data: bytes, from: nat, k: nat)
    requires from <= |data| && KeySpan(data[from..]) == k && k > 0
    ensures from + k <= |data| && ValidKey(data[from..from + k])
  {
    assert data[from..from + k] == data[from..][..k];
  }

  lemma AssembledRecord(data: bytes, d: nat, k: nat, n: nat)
    requires d + k + 3 <= n <= |data| && n < RECORD_LIMIT && data[..d] == Decimal(n)
    requires data[d] == SPACE && data[d + k + 1] == EQUALS && data[n - 1] == NEWLINE
    requires ValidKey(data[d + 1..d + k + 1]) && NoNewline(data[d + k + 2..n - 1])
    ensures IsRecord(data[..n], Entry(data[d + 1..d + k + 1], data[d + k + 2..n - 1]))
  {
    hide Payload, Decimal, ValidKey, NoNewline;
    var s := data[d..n];
    Within(data, d, n, 1, k + 1);
    Within(data, d, n, k + 2, |s| - 1);
    PayloadOf(s, k);
    Sequences.TakeDrop(data[..n], d);
    Within(data, 0, n, d, n);
    Within(data, 0, n, 0, d);
    assert data[0..n] == data[..n] && data[..n][..d] == data[..d] && data[..n][d..] == s;
  }

  /** What RecordAt finds is a record. */
  lemma RecordIsThere(data: bytes)
    requires RecordAt(data).Some?
    ensures var p := RecordAt(data).value; IsRecord(data[..p.length], p.entry)
  {
    hide IsRecord, Payload, Decimal, DecimalValue, LeadingDigits, KeySpan, Pow10, ValidKey, NoNewline;
    var n := RecordAt(data).value.length;
    var d := LeadingDigits(data);
    DecimalCanonical(data[..d]);
    DecimalLength(n, 9);
    NinePowers();
    KeyAt(data, d + 1, KeySpan(data[d + 1..]));
    AssembledRecord(data, d, KeySpan(data[d + 1..]), n);
  }

  // ---- all records ----

  /** The entries of pax data, record by record. */
  function ParsePax(data: bytes): Option<seq<Entry>>
    decreases |data|
  {
    if data == [] then Some([])
    else
      match RecordAt(data)
      case None => None
      case Some(first) =>
        match ParsePax(data[first.length..])
        case None => None
        case Some(rest) => Some([first.entry] + rest)
  }

  /** The strict parser accepts exactly the concatenations of records, and returns their entries in order. */
  lemma {:induction false} ParsesExactlyPax(data: bytes, entries: seq<Entry>)
    ensures ParsePax(data) == Some(entries) <==> IsPax(data, entries)
    decreases |data|
  {
    hide RecordAt, IsRecord;
    if ParsePax(data) == Some(entries) && data != [] {
      var first := RecordAt(data).value;
      RecordIsThere(data);
      ParsesExactlyPax(data[first.length..], entries[1..]);
    }
    if IsPax(data, entries) && entries != [] {
      var n :| 0 < n <= |data| && IsRecord(data[..n], entries[0]) && IsPax(data[n..], entries[1..]);
      RecordFound(data, n, entries[0]);
      ParsesExactlyPax(data[n..], entries[1..]);
      assert entries == [entries[0]] + entries[1..];
    }
  }

  function Keys(entries: seq<Entry>): (keys: seq<bytes>)
    ensures |keys| == |entries| && forall i :: 0 <= i < |keys| ==> keys[i] == entries[i].key
  {
    if entries == [] then [] else [entries[0].key] + Keys(entries[1..])
  }

  /** pax_keys: the keys of the records in order, or nothing for anything that is no pax data. */
  method PaxKeys(data: bytes) returns (r: Option<seq<bytes>>)
    ensures r.Some? <==> exists entries :: IsPax(data, entries)
    ensures r.Some? ==> exists entries :: IsPax(data, entries) && r.value == Keys(entries)
  {
    hide RecordAt, IsPax;
    var keys: seq<bytes> := [];
    ghost var done: seq<Entry> := [];
    var position := 0;
    while position < |data|
      invariant 0 <= position <= |data|
      invariant keys == Keys(done)
      invariant ParsePax(data).Some? <==> ParsePax(data[position..]).Some?
      invariant ParsePax(data).Some? ==> ParsePax(data).value == done + ParsePax(data[position..]).value
    {
      var record := RecordAt(data[position..]);
      if record.None? {
        NoEntries(data);
        return None;
      }
      var first := record.value;
      assert data[position..][first.length..] == data[position + first.length..];
      KeysAdd(done, first.entry);
      if ParsePax(data).Some? {
        Sequences.Assoc(done, [first.entry], ParsePax(data[position + first.length..]).value);
      }
      keys, done := keys + [first.entry.key], done + [first.entry];
      position := position + first.length;
    }
    ParsesExactlyPax(data, done);
    Sequences.Units(done);
    return Some(keys);
  }

  lemma NoEntries(data: bytes)
    requires ParsePax(data).None?
    ensures forall entries :: !IsPax(data, entries)
  {
    forall entries ensures !IsPax(data, entries) {
      ParsesExactlyPax(data, entries);
    }
  }

  lemma {:induction false} KeysAdd(entries: seq<Entry>, e: Entry)
    ensures Keys(entries + [e]) == Keys(entries) + [e.key]
  {
  }

  // ---- the split by length and the split by newline ----

  /** Where the first line ends, its newline included. */
  function LineEnd(data: bytes): (n: nat)
    requires data != []
    ensures 0 < n <= |data| && NoNewline(data[..n - 1])
    ensures data[n - 1] == NEWLINE || n == |data|
  {
    if data[0] == NEWLINE || |data| == 1 then 1
    else
      var n := 1 + LineEnd(data[1..]);
      assert forall i :: 0 < i < |data| ==> data[i] == data[1..][i - 1];
      assert NoNewline(data[..n - 1]) by {
        assert data[..n - 1] == [data[0]] + data[1..][..n - 2];
      }
      n
  }

  function Lines(data: bytes): seq<bytes>
    decreases |data|
  {
    if data == [] then [] else [data[..LineEnd(data)]] + Lines(data[LineEnd(data)..])
  }

  /** A record has its only newline at its end. */
  lemma RecordIsLine(data: bytes, n: nat, e: Entry)
    requires 0 < n <= |data| && IsRecord(data[..n], e)
    ensures LineEnd(data) == n
  {
    hide IsRecord, Payload, Decimal, LineEnd;
    RecordParts(data, n, e);
    forall i | 0 <= i < n - 1 ensures data[i] != NEWLINE {
      NoNewlineAt(data, n, e, i);
    }
    LineEndIs(data, n);
  }

  lemma NoNewlineAt(data: bytes, n: nat, e: Entry, i: nat)
    requires 0 < n <= |data| && IsRecord(data[..n], e) && i < n - 1
    ensures data[i] != NEWLINE
  {
    hide Payload, Decimal;
    RecordParts(data, n, e);
    var digits, start := Decimal(n), |Decimal(n)| + |e.key| + 2;
    if i < |digits| {
      assert data[..|digits|][i] == digits[i];
    } else if |digits| < i < start - 1 {
      assert data[|digits| + 1..start - 1][i - |digits| - 1] == e.key[i - |digits| - 1];
    } else if start <= i {
      assert data[start..n - 1][i - start] == e.value[i - start];
    }
  }

  lemma {:induction false} LineEndIs(data: bytes, n: nat)
    requires 0 < n <= |data| && data[n - 1] == NEWLINE && forall i :: 0 <= i < n - 1 ==> data[i] != NEWLINE
    ensures LineEnd(data) == n
  {
    if n > 1 {
      LineEndIs(data[1..], n - 1);
    }
  }

  /** On accepted data the split by length is the split by newline: each line is one record. */
  lemma {:induction false} LinesAreRecords(data: bytes, entries: seq<Entry>)
    requires IsPax(data, entries)
    ensures |Lines(data)| == |entries|
    ensures forall i :: 0 <= i < |entries| ==> IsRecord(Lines(data)[i], entries[i])
    decreases |data|
  {
    hide IsRecord;
    if entries != [] {
      var n :| 0 < n <= |data| && IsRecord(data[..n], entries[0]) && IsPax(data[n..], entries[1..]);
      RecordIsLine(data, n, entries[0]);
      LinesAreRecords(data[n..], entries[1..]);
    }
  }

  // ---- printing ----

  /** The least number of digits that can count itself. */
  function SelfDigits(n: nat, d: nat): (digits: nat)
    requires d >= 1 && (d > 1 ==> n + d - 1 >= Pow10(d - 1))
    ensures digits >= d && n + digits < Pow10(digits) && (digits > 1 ==> n + digits - 1 >= Pow10(digits - 1))
    decreases n + 100 - d
  {
    if n + d < Pow10(d) then d
    else
      PowerGrows(d);
      SelfDigits(n, d + 1)
  }

  lemma {:induction false} PowerGrows(d: nat)
    requires d >= 1
    ensures Pow10(d) >= 9 * d + 1
  {
    if d > 1 {
      PowerGrows(d - 1);
    }
  }

  /** A length that counts itself: n bytes and its own digits. */
  function SelfLength(n: nat): (length: nat)
    ensures length == n + |Decimal(length)|
  {
    var d := SelfDigits(n, 1);
    DecimalLength(n + d, d);
    if d > 1 then
      DecimalLength(n + d, d - 1);
      n + d
    else n + d
  }

  function PrintEntry(e: Entry): bytes {
    Decimal(SelfLength(|Payload(e)|)) + Payload(e)
  }

  function PrintAll(entries: seq<Entry>): bytes {
    if entries == [] then [] else PrintEntry(entries[0]) + PrintAll(entries[1..])
  }

  /** Every entry that fits can be printed, and reads back. */
  predicate Printable(e: Entry) {
    ValidEntry(e) && SelfLength(|Payload(e)|) < RECORD_LIMIT
  }

  /** Printing with lengths that count themselves round-trips. */
  lemma {:induction false} ParseUndoesPrint(entries: seq<Entry>)
    requires forall i :: 0 <= i < |entries| ==> Printable(entries[i])
    ensures ParsePax(PrintAll(entries)) == Some(entries)
  {
    if entries != [] {
      var e, rest := entries[0], PrintAll(entries[1..]);
      var r := PrintEntry(e);
      ParseUndoesPrint(entries[1..]);
      EntryIsRecord(e);
      hide RecordAt, PrintEntry, IsRecord;
      Halves(r + rest, r, rest);
      RecordFound(r + rest, |r|, e);
      assert entries == [e] + entries[1..];
    }
  }

  lemma EntryIsRecord(e: Entry)
    requires Printable(e)
    ensures PrintEntry(e) != [] && IsRecord(PrintEntry(e), e)
  {
    hide Payload, Decimal, SelfDigits;
    assert |PrintEntry(e)| == SelfLength(|Payload(e)|);
  }
}
