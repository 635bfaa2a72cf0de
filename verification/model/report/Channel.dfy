/** The pipe between a probe and the runtime: its writing loop and its reading loop. */
module Channel {
  import opened Bytes
  import opened Folds

  // ---- the writing end ----

  /** What one write(2) does: takes some of the bytes offered, is interrupted, or fails. */
  datatype Attempt = Took(count: nat) | Interrupted | Failed

  /** How a write of a whole text ends; a write whose attempts never end it is blocked. */
  datatype Ending = Written | Refused | Blocked

  /** An attempt that ends a write: a failure, or one that takes nothing. */
  predicate Fatal(a: Attempt) {
    a.Failed? || a == Took(0)
  }

  predicate AnyFatal(answers: seq<Attempt>) {
    exists i :: 0 <= i < |answers| && Fatal(answers[i])
  }

  /** The most bytes these attempts can take before one of them is fatal. */
  function Capacity(answers: seq<Attempt>): nat {
    if answers == [] || Fatal(answers[0]) then 0
    else (if answers[0].Took? then answers[0].count else 0) + Capacity(answers[1..])
  }

  /** The attempts that take something. */
  function Takes(answers: seq<Attempt>): nat {
    if answers == [] then 0 else (if Fatal(answers[0]) || answers[0].Interrupted? then 0 else 1) + Takes(answers[1..])
  }

  /** The attempts left once n bytes have been taken; the last attempt takes no more than is offered. */
  function Left(answers: seq<Attempt>, n: nat): seq<Attempt> {
    if n == 0 || answers == [] then answers
    else
      var count := if answers[0].Took? then answers[0].count else 0;
      Left(answers[1..], if count <= n then n - count else 0)
  }

  /** A line of n bytes and its newline go through: two writes, one after the other. */
  predicate LineGoes(answers: seq<Attempt>, n: nat) {
    Capacity(answers) >= n && Capacity(Left(answers, n)) >= 1
  }

  lemma FatalLater(answers: seq<Attempt>)
    requires answers != [] && !Fatal(answers[0])
    ensures AnyFatal(answers) <==> AnyFatal(answers[1..])
  {
    if i :| 0 <= i < |answers| && Fatal(answers[i]) {
      assert answers[1..][i - 1] == answers[i];
    }
  }

  lemma {:induction false} LeftFatal(answers: seq<Attempt>, n: nat)
    ensures AnyFatal(Left(answers, n)) ==> AnyFatal(answers)
    decreases |answers|
  {
    if n > 0 && answers != [] {
      var count := if answers[0].Took? then answers[0].count else 0;
      LeftFatal(answers[1..], if count <= n then n - count else 0);
      if i :| 0 <= i < |answers[1..]| && Fatal(answers[1..][i]) {
        assert Fatal(answers[i + 1]);
      }
    }
  }

  /** Without a fatal attempt, n attempts that take something, however little, are enough for n bytes. */
  lemma {:induction false} EnoughTakes(answers: seq<Attempt>, n: nat)
    requires !AnyFatal(answers) && Takes(answers) >= n
    ensures Capacity(answers) >= n && Takes(Left(answers, n)) >= Takes(answers) - n
    decreases |answers|
  {
    if n > 0 {
      assert !Fatal(answers[0]);
      FatalLater(answers);
      var count := if answers[0].Took? then answers[0].count else 0;
      var rest := if count <= n then n - count else 0;
      EnoughTakes(answers[1..], rest);
    }
  }

  /** Interruptions and partial writes do not stop a line. */
  lemma LineGoesThrough(answers: seq<Attempt>, n: nat)
    requires !AnyFatal(answers) && Takes(answers) > n
    ensures LineGoes(answers, n)
  {
    EnoughTakes(answers, n);
    LeftFatal(answers, n);
    EnoughTakes(Left(answers, n), 1);
  }

  /** A descriptor as the kernel serves it: what it has taken, and how it answers the next attempts. */
  class Descriptor {
    var taken: bytes
    var answers: seq<Attempt>

    constructor (answers: seq<Attempt>)
      ensures taken == [] && this.answers == answers
    {
      this.taken, this.answers := [], answers;
    }

    /** One attempt: the kernel takes a prefix of what is offered. */
    method Write(data: bytes) returns (a: Attempt)
      requires answers != [] && data != []
      modifies this
      ensures answers == old(answers)[1..]
      ensures a == match old(answers)[0]
                   case Took(count) => Took(if count <= |data| then count else |data|)
                   case other => other
      ensures taken == old(taken) + if a.Took? then data[..a.count] else []
    {
      a := answers[0];
      answers := answers[1..];
      if a.Took? {
        a := Took(if a.count <= |data| then a.count else |data|);
        taken := taken + data[..a.count];
      }
    }

    /** write_all: offers what remains until nothing does; an interruption is not an error. */
    method WriteAll(text: bytes) returns (e: Ending)
      modifies this
      ensures e.Written? <==> Capacity(old(answers)) >= |text|
      ensures e.Refused? <==> Capacity(old(answers)) < |text| && AnyFatal(old(answers))
      ensures taken == old(taken) + if e.Written? then text else text[..Capacity(old(answers))]
      ensures e.Written? ==> answers == Left(old(answers), |text|)
    {
      var remaining := text;
      assert text[..0] == [];
      while remaining != []
        invariant |remaining| <= |text| && remaining == text[|text| - |remaining|..]
        invariant taken == old(taken) + text[..|text| - |remaining|]
        invariant Capacity(old(answers)) >= |text| <==> Capacity(answers) >= |remaining|
        invariant Capacity(answers) < |remaining| ==>
          Capacity(old(answers)) == |text| - |remaining| + Capacity(answers)
        invariant Left(old(answers), |text|) == Left(answers, |remaining|)
        invariant Capacity(answers) < |remaining| ==> (AnyFatal(old(answers)) <==> AnyFatal(answers))
        decreases |answers|
      {
        if answers == [] {
          return Blocked;
        }
        ghost var done, before := |text| - |remaining|, answers;
        var a := Write(remaining);
        if a.Took? && a.count > 0 {
          assert text[..done] + remaining[..a.count] == text[..done + a.count];
          FatalLater(before);
          remaining := remaining[a.count..];
        } else if a.Took? || a.Failed? {
          assert Fatal(before[0]);
          return Refused;
        } else {
          FatalLater(before);
        }
      }
      assert text[..|text|] == text;
      return Written;
    }

    /** write_line: the text, then a newline. */
    method WriteLine(text: bytes) returns (e: Ending)
      modifies this
      ensures e.Written? <==> LineGoes(old(answers), |text|)
      ensures e.Written? <==> taken == old(taken) + (text + [0x0A])
      ensures exists sent: bytes :: sent <= text + [0x0A] && taken == old(taken) + sent
      ensures e.Refused? ==> AnyFatal(old(answers))
    {
      e := WriteAll(text);
      if e.Written? {
        LeftFatal(old(answers), |text|);
        e := WriteAll([0x0A]);
        ghost var sent := if e.Written? then [0x0A] else [0x0A][..0];
        assert text + sent <= text + [0x0A];
        assert taken == old(taken) + (text + sent);
      } else {
        ghost var sent := text[..Capacity(old(answers))];
        assert sent <= text + [0x0A] && taken == old(taken) + sent;
      }
    }
  }

  // ---- the reading end ----

  /** What one read returns: some bytes, none at the end of the stream, or an error. */
  datatype Chunk = Data(data: bytes) | Broken

  /** The bytes of the chunks up to the end of the stream. */
  function Stream(chunks: seq<Chunk>): bytes {
    if chunks == [] || chunks[0].Broken? || chunks[0].data == [] then []
    else chunks[0].data + Stream(chunks[1..])
  }

  /** A read failed before the end of the stream. */
  predicate Breaks(chunks: seq<Chunk>) {
    chunks != [] && (chunks[0].Broken? || (chunks[0].data != [] && Breaks(chunks[1..])))
  }

  datatype CapturedOutput = CapturedOutput(bytes: bytes, overflow: bool)
  datatype ProcessError = PipeIo

  /** The stream up to the limit, and whether there was more. */
  function Captured(stream: bytes, limit: nat): CapturedOutput {
    if |stream| <= limit then CapturedOutput(stream, false) else CapturedOutput(stream[..limit], true)
  }

  /** What is captured after more of the stream has been read. */
  lemma CapturedMore(stream: bytes, more: bytes, limit: nat)
    ensures var c := Captured(stream, limit);
            var room := if |c.bytes| <= limit then limit - |c.bytes| else 0;
            var retained := if room <= |more| then room else |more|;
            Captured(stream + more, limit)
            == CapturedOutput(c.bytes + more[..retained], c.overflow || retained < |more|)
  {
    var c := Captured(stream, limit);
    var retained := if limit - |c.bytes| <= |more| then limit - |c.bytes| else |more|;
    if |stream| <= limit {
      if |stream + more| <= limit {
        assert more[..retained] == more;
      } else {
        assert (stream + more)[..limit] == stream + more[..retained];
      }
    } else {
      assert (stream + more)[..limit] == stream[..limit] + more[..retained];
    }
  }

  /**
   spawn_reader's loop: whatever the sizes of the chunks, the capture is the
   stream's prefix up to the limit, and overflow says that the stream is longer.
   */
  method Capture(chunks: seq<Chunk>, limit: nat) returns (r: Result<CapturedOutput, ProcessError>)
    ensures Breaks(chunks) ==> r == Threw(PipeIo)
    ensures !Breaks(chunks) ==> r == Ok(Captured(Stream(chunks), limit))
  {
    var captured: bytes := [];
    var overflow := false;
    ghost var seen: bytes := [];
    var i := 0;
    while i < |chunks|
      invariant 0 <= i <= |chunks|
      invariant seen + Stream(chunks[i..]) == Stream(chunks) && (Breaks(chunks[i..]) <==> Breaks(chunks))
      invariant CapturedOutput(captured, overflow) == Captured(seen, limit)
    {
      assert chunks[i..][1..] == chunks[i + 1..];
      if chunks[i].Broken? {
        return Threw(PipeIo);
      }
      var read := chunks[i].data;
      if read == [] {
        break;
      }
      CapturedMore(seen, read, limit);
      var available := if |captured| <= limit then limit - |captured| else 0;
      var retained := if available <= |read| then available else |read|;
      captured := captured + read[..retained];
      overflow := overflow || retained < |read|;
      assert seen + (read + Stream(chunks[i + 1..])) == seen + read + Stream(chunks[i + 1..]);
      seen := seen + read;
      i := i + 1;
    }
    assert seen == Stream(chunks);
    return Ok(CapturedOutput(captured, overflow));
  }

  // ---- from one end to the other ----

  /** The chunks in which reads of these sizes return the stream; a read returns at least one byte. */
  function Cut(stream: bytes, sizes: seq<nat>): seq<Chunk> {
    if stream == [] then []
    else
      var asked := if sizes == [] then |stream| else sizes[0];
      var n := if asked == 0 then 1 else if asked <= |stream| then asked else |stream|;
      [Data(stream[..n])] + Cut(stream[n..], if sizes == [] then [] else sizes[1..])
  }

  lemma {:induction false} CutKeeps(stream: bytes, sizes: seq<nat>)
    ensures Stream(Cut(stream, sizes)) == stream && !Breaks(Cut(stream, sizes))
    decreases |stream|
  {
    if stream != [] {
      var asked := if sizes == [] then |stream| else sizes[0];
      var n := if asked == 0 then 1 else if asked <= |stream| then asked else |stream|;
      var first, rest := [Data(stream[..n])], Cut(stream[n..], if sizes == [] then [] else sizes[1..]);
      CutKeeps(stream[n..], if sizes == [] then [] else sizes[1..]);
      assert (first + rest)[1..] == rest && (first + rest)[0] == first[0];
      assert stream[..n] + stream[n..] == stream;
    }
  }
}
