/**
 The pipe between the pool and an extraction worker (src/extraction_worker.rs):
 frames of a 4-byte little-endian length followed by a payload, the token
 handshake that opens the stream, and the worker's serve loop.

 The payload encoding (bincode) is a pair of functions; `Inverse` is the only
 thing assumed of it.
 */
module ExtractionWire {
  import opened Common

  type byte = b: int | 0 <= b < 0x100

  const HEADER_LEN := 4
  const FRAME_LIMIT := 0x1_0000_0000
  const TOKEN_LEN := 32

  datatype Codec<!T> = Codec(encode: T -> seq<byte>, decode: seq<byte> -> Option<T>)

  ghost predicate Inverse<T(!new)>(c: Codec<T>) {
    forall m: T :: c.decode(c.encode(m)) == Some(m)
  }

  // ---------------------------------------------------------------- lengths

  /** The `k` low bytes of `n`, lowest first. */
  function Le(n: nat, k: nat): (bs: seq<byte>)
    ensures |bs| == k
  {
    if k == 0 then [] else [n % 0x100] + Le(n / 0x100, k - 1)
  }

  function FromLe(bs: seq<byte>): nat {
    if bs == [] then 0 else bs[0] as nat + 0x100 * FromLe(bs[1..])
  }

  function Limit(k: nat): nat {
    if k == 0 then 1 else 0x100 * Limit(k - 1)
  }

  lemma {:induction false} LeReadsBack(n: nat, k: nat)
    requires n < Limit(k)
    ensures FromLe(Le(n, k)) == n
    decreases k
  {
    if k > 0 {
      LeReadsBack(n / 0x100, k - 1);
      assert Le(n, k)[1..] == Le(n / 0x100, k - 1);
    }
  }

  lemma HeaderReadsBack(n: nat)
    requires n < FRAME_LIMIT
    ensures FromLe(Le(n, HEADER_LEN)) == n
  {
    assert Limit(1) == 0x100;
    assert Limit(2) == 0x1_0000;
    assert Limit(4) == 0x100 * (0x100 * Limit(2));
    LeReadsBack(n, HEADER_LEN);
  }

  /** The length as four bytes, lowest first, and what four bytes say. */
  lemma HeaderIsLittleEndian(n: nat, bs: seq<byte>)
    requires n < FRAME_LIMIT && |bs| == 4
    ensures Le(n, 4) == [n % 0x100, n / 0x100 % 0x100, n / 0x1_0000 % 0x100, n / 0x100_0000]
    ensures FromLe(bs) == bs[0] as nat + 0x100 * bs[1] as nat + 0x1_0000 * bs[2] as nat + 0x100_0000 * bs[3] as nat
  {
    assert n / 0x100 / 0x100 == n / 0x1_0000 && n / 0x1_0000 / 0x100 == n / 0x100_0000;
    assert Le(n / 0x100_0000, 1) == [n / 0x100_0000];
    assert Le(n / 0x1_0000, 2) == [n / 0x1_0000 % 0x100, n / 0x100_0000];
    assert FromLe(bs[1..][1..][1..]) == bs[3] as nat;
    assert FromLe(bs[1..][1..]) == bs[2] as nat + 0x100 * bs[3] as nat;
  }

  // ----------------------------------------------------------------- frames

  datatype Read<T> =
    | Message(value: T)
    | EndOfInput
    | Malformed

  predicate Writable<T>(c: Codec<T>, msgs: seq<T>) {
    forall i :: 0 <= i < |msgs| ==> |c.encode(msgs[i])| < FRAME_LIMIT
  }

  function Frame<T>(c: Codec<T>, m: T): (bs: seq<byte>)
    requires |c.encode(m)| < FRAME_LIMIT
    ensures |bs| >= HEADER_LEN
  {
    Le(|c.encode(m)|, HEADER_LEN) + c.encode(m)
  }

  function WriteAll<T>(c: Codec<T>, msgs: seq<T>): seq<byte>
    requires Writable(c, msgs)
  {
    if msgs == [] then [] else Frame(c, msgs[0]) + WriteAll(c, msgs[1..])
  }

  /** One `read_message`: what it returns and what is left of the stream. */
  function ReadFrame<T>(c: Codec<T>, s: seq<byte>): (r: (Read<T>, seq<byte>))
    ensures |s| > 0 ==> |r.1| < |s|
  {
    if |s| < HEADER_LEN then (EndOfInput, [])
    else
      var n := FromLe(s[..HEADER_LEN]);
      var body := s[HEADER_LEN..];
      if |body| < n then (EndOfInput, [])
      else match c.decode(body[..n])
        case Some(m) => (Message(m), body[n..])
        case None => (Malformed, body[n..])
  }

  /** Reading until something other than a message turns up. */
  function ReadAll<T>(c: Codec<T>, s: seq<byte>): (seq<T>, Read<T>)
    decreases |s|
  {
    var (r, rest) := ReadFrame(c, s);
    if r.Message? && |rest| < |s| then
      var (ms, end) := ReadAll(c, rest);
      ([r.value] + ms, end)
    else ([], r)
  }

  /** On any bytes at all, whoever wrote them: a message needs its header and as many bytes
      as that says; with them exactly those are used up, readable or not. */
  lemma ReadFrameExactly<T>(c: Codec<T>, s: seq<byte>)
    ensures var (r, rest) := ReadFrame(c, s);
            if |s| < 4 then r == EndOfInput && rest == []
            else
              var n := s[0] as nat + 0x100 * s[1] as nat + 0x1_0000 * s[2] as nat + 0x100_0000 * s[3] as nat;
              if |s| < 4 + n then r == EndOfInput && rest == []
              else
                rest == s[4 + n..]
                && r == match c.decode(s[4..4 + n]) case Some(m) => Message(m) case None => Malformed
  {
    if |s| >= 4 {
      HeaderIsLittleEndian(0, s[..4]);
      var n := FromLe(s[..4]);
      if |s| >= 4 + n {
        assert s[4..][..n] == s[4..4 + n] && s[4..][n..] == s[4 + n..];
      }
    }
  }

  lemma ReadFrameOfFrame<T(!new)>(c: Codec<T>, m: T, rest: seq<byte>)
    requires Inverse(c) && |c.encode(m)| < FRAME_LIMIT
    ensures ReadFrame(c, Frame(c, m) + rest) == (Message(m), rest)
  {
    var payload := c.encode(m);
    var s := Frame(c, m) + rest;
    assert s[..HEADER_LEN] == Le(|payload|, HEADER_LEN);
    assert s[HEADER_LEN..] == payload + rest;
    assert (payload + rest)[..|payload|] == payload && (payload + rest)[|payload|..] == rest;
    HeaderReadsBack(|payload|);
  }

  lemma PartialFrame<T(!new)>(c: Codec<T>, m: T, k: nat)
    requires |c.encode(m)| < FRAME_LIMIT && k < |Frame(c, m)|
    ensures ReadFrame(c, Frame(c, m)[..k]) == (EndOfInput, [])
  {
    if HEADER_LEN <= k {
      var s := Frame(c, m)[..k];
      assert s[..HEADER_LEN] == Le(|c.encode(m)|, HEADER_LEN);
      HeaderReadsBack(|c.encode(m)|);
    }
  }

  /** How many whole frames lie in the first `k` bytes of `WriteAll(c, msgs)`. */
  function WholeFrames<T>(c: Codec<T>, msgs: seq<T>, k: nat): (n: nat)
    requires Writable(c, msgs)
    ensures n <= |msgs|
    decreases |msgs|
  {
    if msgs == [] || k < |Frame(c, msgs[0])| then 0
    else 1 + WholeFrames(c, msgs[1..], k - |Frame(c, msgs[0])|)
  }

  /** `WholeFrames` is the largest number of messages whose frames fit in `k` bytes. */
  lemma {:induction false} WholeFramesIsMaximal<T>(c: Codec<T>, msgs: seq<T>, k: nat)
    requires Writable(c, msgs)
    ensures var n := WholeFrames(c, msgs, k);
            |WriteAll(c, msgs[..n])| <= k
            && (n < |msgs| ==> k < |WriteAll(c, msgs[..n + 1])|)
    decreases |msgs|
  {
    if msgs != [] {
      var f := |Frame(c, msgs[0])|;
      assert msgs[..1][1..] == [];
      if f <= k {
        var n := WholeFrames(c, msgs, k);
        WholeFramesIsMaximal(c, msgs[1..], k - f);
        assert msgs[..n][1..] == msgs[1..][..n - 1];
        if n < |msgs| {
          assert msgs[..n + 1][1..] == msgs[1..][..n];
        }
      }
    }
  }

  lemma ReadAllCons<T(!new)>(c: Codec<T>, m: T, rest: seq<byte>)
    requires Inverse(c) && |c.encode(m)| < FRAME_LIMIT
    ensures ReadAll(c, Frame(c, m) + rest) == ([m] + ReadAll(c, rest).0, ReadAll(c, rest).1)
  {
    ReadFrameOfFrame(c, m, rest);
  }

  lemma ReadAllPartial<T(!new)>(c: Codec<T>, m: T, k: nat)
    requires |c.encode(m)| < FRAME_LIMIT && k < |Frame(c, m)|
    ensures ReadAll(c, Frame(c, m)[..k]) == ([], EndOfInput)
  {
    PartialFrame(c, m, k);
  }

  /** Any truncation of a written stream reads back as the messages whose frames
      survived whole, then end of input: never a wrong or an extra message. */
  lemma {:induction false} TruncationReadsAPrefix<T(!new)>(c: Codec<T>, msgs: seq<T>, k: nat)
    requires Inverse(c) && Writable(c, msgs) && k <= |WriteAll(c, msgs)|
    ensures ReadAll(c, WriteAll(c, msgs)[..k])
         == (msgs[..WholeFrames(c, msgs, k)], EndOfInput)
    decreases |msgs|
  {
    if msgs != [] {
      var m, tail := msgs[0], msgs[1..];
      var f, more := Frame(c, m), WriteAll(c, tail);
      assert WriteAll(c, msgs) == f + more;
      if k < |f| {
        assert (f + more)[..k] == f[..k];
        ReadAllPartial(c, m, k);
      } else {
        assert (f + more)[..k] == f + more[..k - |f|];
        ReadAllCons(c, m, more[..k - |f|]);
        TruncationReadsAPrefix(c, tail, k - |f|);
        OneMoreWhole(c, msgs, k);
      }
    }
  }

  lemma OneMoreWhole<T>(c: Codec<T>, msgs: seq<T>, k: nat)
    requires Writable(c, msgs) && msgs != [] && |Frame(c, msgs[0])| <= k <= |WriteAll(c, msgs)|
    ensures var f := |Frame(c, msgs[0])|;
            && k - f <= |WriteAll(c, msgs[1..])|
            && msgs[..WholeFrames(c, msgs, k)] == [msgs[0]] + msgs[1..][..WholeFrames(c, msgs[1..], k - f)]
  {
    assert WholeFrames(c, msgs, k) == 1 + WholeFrames(c, msgs[1..], k - |Frame(c, msgs[0])|);
  }

  lemma {:induction false} AllFramesAreWhole<T>(c: Codec<T>, msgs: seq<T>)
    requires Writable(c, msgs)
    ensures WholeFrames(c, msgs, |WriteAll(c, msgs)|) == |msgs|
    decreases |msgs|
  {
    if msgs != [] {
      AllFramesAreWhole(c, msgs[1..]);
    }
  }

  /** Writing a list of messages and reading the stream returns exactly that list. */
  lemma WriteThenRead<T(!new)>(c: Codec<T>, msgs: seq<T>)
    requires Inverse(c) && Writable(c, msgs)
    ensures ReadAll(c, WriteAll(c, msgs)) == (msgs, EndOfInput)
  {
    var s := WriteAll(c, msgs);
    TruncationReadsAPrefix(c, msgs, |s|);
    AllFramesAreWhole(c, msgs);
    assert s[..|s|] == s && msgs[..|msgs|] == msgs;
  }

  // -------------------------------------------------- the token comparison

  function Xor(x: nat, y: nat): nat
    decreases x + y
  {
    if x == 0 && y == 0 then 0 else 2 * Xor(x / 2, y / 2) + (x % 2 + y % 2) % 2
  }

  function Or(x: nat, y: nat): nat
    decreases x + y
  {
    if x == 0 && y == 0 then 0
    else 2 * Or(x / 2, y / 2) + if x % 2 == 1 || y % 2 == 1 then 1 else 0
  }

  lemma {:induction false} XorIsZeroOnEquals(x: nat, y: nat)
    ensures Xor(x, y) == 0 <==> x == y
    decreases x + y
  {
    if x != 0 || y != 0 {
      XorIsZeroOnEquals(x / 2, y / 2);
    }
  }

  lemma {:induction false} OrIsZeroOnZeros(x: nat, y: nat)
    ensures Or(x, y) == 0 <==> x == 0 && y == 0
    decreases x + y
  {
    if x != 0 || y != 0 {
      OrIsZeroOnZeros(x / 2, y / 2);
    }
  }

  /** Compares without an early exit: differences are OR-ed into an accumulator. */
  method SlicesEq(a: seq<byte>, b: seq<byte>) returns (eq: bool)
    ensures eq <==> a == b
  {
    if |a| != |b| {
      return false;
    }
    var acc: nat := 0;
    for i := 0 to |a|
      invariant acc == 0 <==> a[..i] == b[..i]
    {
      XorIsZeroOnEquals(a[i], b[i]);
      OrIsZeroOnZeros(acc, Xor(a[i], b[i]));
      assert a[..i + 1] == a[..i] + [a[i]] && b[..i + 1] == b[..i] + [b[i]];
      acc := Or(acc, Xor(a[i], b[i]));
    }
    assert a[..|a|] == a && b[..|b|] == b;
    return acc == 0;
  }

  // ------------------------------------------------------- reader and writer

  class Reader {
    var rest: seq<byte>

    constructor (input: seq<byte>)
      ensures rest == input
    {
      rest := input;
    }

    /** Fills `buf`, or reports end of input once the stream is used up. */
    method ReadExact(buf: array<byte>) returns (ok: bool)
      modifies this, buf
      ensures ok <==> buf.Length <= |old(rest)|
      ensures ok ==> buf[..] == old(rest)[..buf.Length] && rest == old(rest)[buf.Length..]
      ensures !ok ==> rest == []
    {
      if |rest| < buf.Length {
        rest := [];
        return false;
      }
      for i := 0 to buf.Length
        modifies buf
        invariant buf[..i] == rest[..i]
      {
        buf[i] := rest[i];
        assert buf[..i + 1] == rest[..i] + [rest[i]];
      }
      rest := rest[buf.Length..];
      ok := true;
    }

    method ReadMessage<T>(c: Codec<T>) returns (r: Read<T>)
      modifies this
      ensures (r, rest) == ReadFrame(c, old(rest))
    {
      var lenBuf := new byte[HEADER_LEN];
      var ok := ReadExact(lenBuf);
      if !ok {
        return EndOfInput;
      }
      var buf := new byte[FromLe(lenBuf[..])];
      ok := ReadExact(buf);
      if !ok {
        return EndOfInput;
      }
      match c.decode(buf[..])
      case Some(m) => r := Message(m);
      case None => r := Malformed;
    }
  }

  class Writer {
    var sent: seq<byte>

    constructor ()
      ensures sent == []
    {
      sent := [];
    }

    /** Refuses, and writes nothing, when the payload length does not fit in 32 bits. */
    method WriteMessage<T>(c: Codec<T>, m: T) returns (ok: bool)
      modifies this
      ensures ok <==> |c.encode(m)| < FRAME_LIMIT
      ensures sent == if ok then old(sent) + Frame(c, m) else old(sent)
    {
      var bytes := c.encode(m);
      if |bytes| >= FRAME_LIMIT {
        return false;
      }
      sent := sent + Le(|bytes|, HEADER_LEN);
      sent := sent + bytes;
      ok := true;
    }
  }

  // ------------------------------------------------------------- the worker

  datatype Exit = Clean | Failed

  /** The answers a worker owes for a list of requests: up to the first one too
      large to frame. */
  function Answers<Req, Resp>(reqs: seq<Req>, process: Req -> Resp, out: Codec<Resp>): (rs: seq<Resp>)
    ensures Writable(out, rs) && |rs| <= |reqs|
    ensures forall i :: 0 <= i < |rs| ==> rs[i] == process(reqs[i])
  {
    if reqs == [] || |out.encode(process(reqs[0]))| >= FRAME_LIMIT then []
    else [process(reqs[0])] + Answers(reqs[1..], process, out)
  }

  /** What the rest of a session sends, and how it exits, for the unread input `s`. */
  function Session<Req, Resp>(s: seq<byte>, process: Req -> Resp, in_: Codec<Req>, out: Codec<Resp>)
      : (seq<byte>, Exit)
    decreases |s|
  {
    var (r, rest) := ReadFrame(in_, s);
    match r
    case EndOfInput => ([], Clean)
    case Malformed => ([], Failed)
    case Message(m) =>
      if |out.encode(process(m))| >= FRAME_LIMIT || |rest| >= |s| then ([], Failed)
      else
        var (sent, exit) := Session(rest, process, in_, out);
        (Frame(out, process(m)) + sent, exit)
  }

  /** A session answers the requests it reads, in order. */
  lemma {:induction false} SessionIsAnswers<Req, Resp>(
      s: seq<byte>, process: Req -> Resp, in_: Codec<Req>, out: Codec<Resp>)
    ensures var (reqs, end) := ReadAll(in_, s);
            var rs := Answers(reqs, process, out);
            Session(s, process, in_, out)
            == (WriteAll(out, rs), if |rs| == |reqs| && end == EndOfInput then Clean else Failed)
    decreases |s|
  {
    var (r, rest) := ReadFrame(in_, s);
    if r.Message? {
      assert |rest| < |s|;
      SessionIsAnswers(rest, process, in_, out);
      var reqs, rs := ReadAll(in_, rest).0, Answers(ReadAll(in_, rest).0, process, out);
      assert ReadAll(in_, s).0 == [r.value] + reqs;
      assert ([r.value] + reqs)[1..] == reqs;
      if |out.encode(process(r.value))| < FRAME_LIMIT {
        assert Answers([r.value] + reqs, process, out) == [process(r.value)] + rs;
        assert ([process(r.value)] + rs)[1..] == rs;
        assert Writable(out, [process(r.value)] + rs);
        assert WriteAll(out, [process(r.value)] + rs) == Frame(out, process(r.value)) + WriteAll(out, rs);
      }
    }
  }

  /** `goal` is what a session owes that has sent `sent` and still has `s` to read. */
  ghost predicate Owes<Req, Resp>(sent: seq<byte>, s: seq<byte>, process: Req -> Resp,
                                  in_: Codec<Req>, out: Codec<Resp>, goal: (seq<byte>, Exit))
  {
    goal == (sent + Session(s, process, in_, out).0, Session(s, process, in_, out).1)
  }

  lemma Advance<Req, Resp>(sent: seq<byte>, s: seq<byte>, process: Req -> Resp,
                           in_: Codec<Req>, out: Codec<Resp>, goal: (seq<byte>, Exit))
    requires Owes(sent, s, process, in_, out, goal)
    ensures var (r, rest) := ReadFrame(in_, s);
            match r
            case EndOfInput => goal == (sent, Clean)
            case Malformed => goal == (sent, Failed)
            case Message(m) =>
              |rest| < |s| &&
              if |out.encode(process(m))| >= FRAME_LIMIT then goal == (sent, Failed)
              else Owes(sent + Frame(out, process(m)), rest, process, in_, out, goal)
  {
    var (r, rest) := ReadFrame(in_, s);
    if r.Message? && |out.encode(process(r.value))| < FRAME_LIMIT {
      assert |s| > 0;
      var f, more := Frame(out, process(r.value)), Session(rest, process, in_, out).0;
      assert Session(s, process, in_, out).0 == f + more;
      assert sent + (f + more) == (sent + f) + more;
    } else {
      assert sent + [] == sent;
    }
  }

  /** The serve loop: read a request, answer it, until the input ends. */
  method Serve<Req, Resp>(reader: Reader, writer: Writer, process: Req -> Resp,
                          in_: Codec<Req>, out: Codec<Resp>, ghost goal: (seq<byte>, Exit))
      returns (exit: Exit)
    requires Owes(writer.sent, reader.rest, process, in_, out, goal)
    modifies reader, writer
    ensures (writer.sent, exit) == goal
  {
    while true
      invariant Owes(writer.sent, reader.rest, process, in_, out, goal)
      decreases |reader.rest|
    {
      Advance(writer.sent, reader.rest, process, in_, out, goal);
      var req := reader.ReadMessage(in_);
      match req
      case EndOfInput => return Clean;
      case Malformed => return Failed;
      case Message(m) =>
        var ok := writer.WriteMessage(out, process(m));
        if !ok {
          return Failed;
        }
    }
  }

  /** `worker_main`: `expected` is the decoded environment token, `None` when the
      variable is missing or malformed. Without the matching first 32 bytes nothing is
      served; with them every whole request is answered in order. */
  method WorkerMain<Req, Resp>(expected: Option<seq<byte>>, stdin: seq<byte>, process: Req -> Resp,
                               in_: Codec<Req>, out: Codec<Resp>)
      returns (exit: Exit, stdout: seq<byte>)
    ensures var served := expected.Some? && |expected.value| == TOKEN_LEN && expected.value <= stdin;
            if served then
              var (reqs, end) := ReadAll(in_, stdin[TOKEN_LEN..]);
              var rs := Answers(reqs, process, out);
              stdout == WriteAll(out, rs)
              && (exit == Clean <==> |rs| == |reqs| && end == EndOfInput)
            else exit == Failed && stdout == []
  {
    if expected == None || |expected.value| != TOKEN_LEN {
      return Failed, [];
    }
    var reader := new Reader(stdin);
    var writer := new Writer();
    var received := new byte[TOKEN_LEN];
    var ok := reader.ReadExact(received);
    if !ok {
      return Failed, [];
    }
    var same := SlicesEq(received[..], expected.value);
    if !same {
      return Failed, [];
    }
    assert expected.value <= stdin;
    ghost var goal := Session(stdin[TOKEN_LEN..], process, in_, out);
    assert [] + goal.0 == goal.0;
    exit := Serve(reader, writer, process, in_, out, goal);
    stdout := writer.sent;
    SessionIsAnswers(stdin[TOKEN_LEN..], process, in_, out);
  }

  /** End to end: a worker holding the pool's token, fed the token and then any list of
      frameable requests, sends back frames that the pool reads back as the answers in
      order: all of them if and only if every one can be framed, else those before the first
      that cannot. */
  lemma ServedRequestsRoundTrip<Req(!new), Resp(!new)>(
      reqs: seq<Req>, process: Req -> Resp, in_: Codec<Req>, out: Codec<Resp>, token: seq<byte>)
    requires Inverse(in_) && Inverse(out) && Writable(in_, reqs) && |token| == TOKEN_LEN
    ensures var stdin := token + WriteAll(in_, reqs);
            ReadAll(in_, stdin[TOKEN_LEN..]) == (reqs, EndOfInput)
    ensures var rs := Answers(reqs, process, out);
            && ReadAll(out, WriteAll(out, rs)) == (rs, EndOfInput)
            && (forall i :: 0 <= i < |rs| ==> rs[i] == process(reqs[i]))
            && (|rs| < |reqs| ==> |out.encode(process(reqs[|rs|]))| >= FRAME_LIMIT)
            && (|rs| == |reqs| <==> forall i :: 0 <= i < |reqs| ==> |out.encode(process(reqs[i]))| < FRAME_LIMIT)
  {
    WriteThenRead(in_, reqs);
    assert (token + WriteAll(in_, reqs))[TOKEN_LEN..] == WriteAll(in_, reqs);
    AnswersStop(reqs, process, out);
    WriteThenRead(out, Answers(reqs, process, out));
  }

  /** The answers stop at the first that cannot be framed. */
  lemma {:induction false} AnswersStop<Req, Resp>(reqs: seq<Req>, process: Req -> Resp, out: Codec<Resp>)
    ensures var n := |Answers(reqs, process, out)|;
            && (forall i :: 0 <= i < n ==> |out.encode(process(reqs[i]))| < FRAME_LIMIT)
            && (n < |reqs| ==> |out.encode(process(reqs[n]))| >= FRAME_LIMIT)
  {
    if reqs != [] && |out.encode(process(reqs[0]))| < FRAME_LIMIT {
      AnswersStop(reqs[1..], process, out);
    }
  }
}
