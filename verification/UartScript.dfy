/** The scripted UART template: echo, binary and default responses, and line matching over a buffer. */
module UartScript {
  import opened Words

  const NEWLINE: byte := 10
  const RETURN: byte := 13

  /**
    * The template's options; respond looks a line up after its carriage returns are stripped, and is only
    * consulted when there are line responses at all.
    */
  datatype Options = Options(
    echo: bool, hasLines: bool, respond: seq<byte> -> Option<seq<byte>>,
    binary: map<seq<byte>, seq<byte>>, fallback: seq<byte>)

  /** Where the first newline is, or the length when there is none. */
  function FirstNewline(s: seq<byte>): (i: nat)
    ensures i <= |s|
    ensures forall j :: 0 <= j < i ==> s[j] != NEWLINE
    ensures i < |s| ==> s[i] == NEWLINE
  {
    if s == [] || s[0] == NEWLINE then 0 else 1 + FirstNewline(s[1..])
  }

  function RStrip(line: seq<byte>): (r: seq<byte>)
    ensures r <= line && (r == [] || r[|r| - 1] != RETURN)
    ensures forall j :: |r| <= j < |line| ==> line[j] == RETURN
  {
    if line != [] && line[|line| - 1] == RETURN then RStrip(line[..|line| - 1]) else line
  }

  function LineReply(o: Options, line: seq<byte>): seq<byte> {
    var found := o.respond(RStrip(line));
    if found.Some? then found.value else []
  }

  /** The replies to the complete lines of a buffer. */
  function LineReplies(o: Options, buffer: seq<byte>): seq<byte>
    decreases |buffer|
  {
    var i := FirstNewline(buffer);
    if i == |buffer| then [] else LineReply(o, buffer[..i]) + LineReplies(o, buffer[i + 1..])
  }

  /** What follows the last newline. */
  function Residue(buffer: seq<byte>): (r: seq<byte>)
    decreases |buffer|
  {
    var i := FirstNewline(buffer);
    if i == |buffer| then buffer else Residue(buffer[i + 1..])
  }

  /** The line replies to a chunk, and the buffer it leaves. */
  function Lines(o: Options, buffer: seq<byte>, data: seq<byte>): (seq<byte>, seq<byte>) {
    if o.hasLines && data != [] then (LineReplies(o, buffer + data), Residue(buffer + data)) else ([], buffer)
  }

  /** The reply to a chunk, and the buffer it leaves. */
  function Handle(o: Options, buffer: seq<byte>, data: seq<byte>): (seq<byte>, seq<byte>) {
    var (replies, rest) := Lines(o, buffer, data);
    var reply := (if o.echo then data else []) + (if data in o.binary then o.binary[data] else []) + replies;
    (if reply == [] && data != [] then o.fallback else reply, rest)
  }

  /** The replies to a run of chunks, joined, and the buffer it leaves. */
  function HandleAll(o: Options, buffer: seq<byte>, chunks: seq<seq<byte>>): (seq<byte>, seq<byte>)
    decreases |chunks|
  {
    if chunks == [] then ([], buffer)
    else
      var (reply, rest) := Handle(o, buffer, chunks[0]);
      var (replies, last) := HandleAll(o, rest, chunks[1..]);
      (reply + replies, last)
  }

  function Join(chunks: seq<seq<byte>>): seq<byte> {
    if chunks == [] then [] else chunks[0] + Join(chunks[1..])
  }

  // A buffer never keeps a complete line.

  lemma {:induction false} ResidueHasNoLine(buffer: seq<byte>)
    ensures FirstNewline(Residue(buffer)) == |Residue(buffer)|
    decreases |buffer|
  {
    var i := FirstNewline(buffer);
    if i < |buffer| {
      ResidueHasNoLine(buffer[i + 1..]);
    }
  }

  lemma {:induction false} FirstNewlineOfPrefix(x: seq<byte>, y: seq<byte>)
    requires FirstNewline(x) < |x|
    ensures FirstNewline(x + y) == FirstNewline(x)
  {
    if x[0] != NEWLINE {
      FirstNewlineOfPrefix(x[1..], y);
      assert (x + y)[1..] == x[1..] + y;
    }
  }

  /** One line off the front of a buffer. */
  lemma FirstLine(o: Options, buffer: seq<byte>, i: nat)
    requires i == FirstNewline(buffer) < |buffer|
    ensures LineReplies(o, buffer) == LineReply(o, buffer[..i]) + LineReplies(o, buffer[i + 1..])
    ensures Residue(buffer) == Residue(buffer[i + 1..])
  {
    hide LineReply;
  }

  lemma NoLine(o: Options, buffer: seq<byte>)
    requires FirstNewline(buffer) == |buffer|
    ensures LineReplies(o, buffer) == [] && Residue(buffer) == buffer
  {
  }

  lemma {:induction false} LinesOfAppend(o: Options, x: seq<byte>, y: seq<byte>)
    ensures LineReplies(o, x + y) == LineReplies(o, x) + LineReplies(o, Residue(x) + y)
    ensures Residue(x + y) == Residue(Residue(x) + y)
    decreases |x|
  {
    hide LineReply, LineReplies, Residue, FirstNewline;
    var i := FirstNewline(x);
    if i < |x| {
      FirstNewlineOfPrefix(x, y);
      assert (x + y)[..i] == x[..i] && (x + y)[i + 1..] == x[i + 1..] + y;
      FirstLine(o, x, i);
      FirstLine(o, x + y, i);
      LinesOfAppend(o, x[i + 1..], y);
      Regroup(LineReply(o, x[..i]), LineReplies(o, x[i + 1..]), LineReplies(o, Residue(x) + y));
    } else {
      NoLine(o, x);
      assert [] + LineReplies(o, x + y) == LineReplies(o, x + y);
    }
  }

  lemma Regroup(a: seq<byte>, b: seq<byte>, c: seq<byte>)
    ensures a + (b + c) == a + b + c
  {
  }

  /** Line matching is independent of chunking, in its replies and in the buffer. */
  lemma {:induction false} LinesIgnoreChunking(o: Options, buffer: seq<byte>, a: seq<byte>, b: seq<byte>)
    requires FirstNewline(buffer) == |buffer|
    ensures
      var (first, rest) := Lines(o, buffer, a);
      var (second, last) := Lines(o, rest, b);
      Lines(o, buffer, a + b) == (first + second, last)
  {
    hide LineReplies, Residue;
    if a == [] {
      assert a + b == b;
    } else if b == [] {
      assert a + b == a;
    } else if o.hasLines {
      LinesOfAppend(o, buffer + a, b);
      assert buffer + a + b == buffer + (a + b);
    }
    var first, second := Lines(o, buffer, a).0, Lines(o, Lines(o, buffer, a).1, b).0;
    assert first + [] == first && [] + second == second;
  }

  predicate LinesOnly(o: Options) {
    !o.echo && o.binary == map[] && o.fallback == []
  }

  lemma HandleIsLines(o: Options, buffer: seq<byte>, data: seq<byte>)
    requires LinesOnly(o)
    ensures Handle(o, buffer, data) == Lines(o, buffer, data)
  {
    hide Lines;
    var replies := Lines(o, buffer, data).0;
    assert [] + [] + replies == replies;
  }

  /** A script of line responses answers any chunking of its input as one call with the whole input. */
  lemma {:induction false} ChunkingIsInvisible(o: Options, buffer: seq<byte>, chunks: seq<seq<byte>>)
    requires LinesOnly(o) && FirstNewline(buffer) == |buffer|
    ensures HandleAll(o, buffer, chunks) == Handle(o, buffer, Join(chunks))
    decreases |chunks|
  {
    hide Handle, Lines, Residue, LinesOnly;
    HandleIsLines(o, buffer, Join(chunks));
    if chunks == [] {
      NoData(o, buffer);
    } else {
      var a, b := chunks[0], Join(chunks[1..]);
      var (first, rest) := Lines(o, buffer, a);
      HandleIsLines(o, buffer, a);
      RestHasNoLine(o, buffer, a);
      ChunkingIsInvisible(o, rest, chunks[1..]);
      HandleIsLines(o, rest, b);
      LinesIgnoreChunking(o, buffer, a, b);
    }
  }

  lemma NoData(o: Options, buffer: seq<byte>)
    ensures Lines(o, buffer, []) == ([], buffer)
  {
  }

  lemma RestHasNoLine(o: Options, buffer: seq<byte>, a: seq<byte>)
    requires FirstNewline(buffer) == |buffer|
    ensures FirstNewline(Lines(o, buffer, a).1) == |Lines(o, buffer, a).1|
  {
    ResidueHasNoLine(buffer + a);
  }

  /** With binary and default responses too, the buffer still does not depend on the chunking. */
  lemma {:induction false} BufferIgnoresChunking(o: Options, buffer: seq<byte>, chunks: seq<seq<byte>>)
    requires FirstNewline(buffer) == |buffer|
    ensures HandleAll(o, buffer, chunks).1 == Handle(o, buffer, Join(chunks)).1
    decreases |chunks|
  {
    hide LineReplies, Residue;
    if chunks != [] {
      var a, b := chunks[0], Join(chunks[1..]);
      var rest := Handle(o, buffer, a).1;
      RestHasNoLine(o, buffer, a);
      BufferIgnoresChunking(o, rest, chunks[1..]);
      LinesIgnoreChunking(o, buffer, a, b);
    }
  }

  lemma {:induction false} MiddlesCommute(p: seq<byte>, x: seq<byte>, y: seq<byte>, q: seq<byte>)
    ensures p + x + (y + q) == p + y + (x + q) <==> x + y == y + x
  {
    var u, v := p + x + (y + q), p + y + (x + q);
    assert u == p + (x + y) + q && v == p + (y + x) + q;
    var n := |p| + |x| + |y|;
    assert u[|p|..n] == x + y && v[|p|..n] == y + x;
  }

  lemma HandleIsEchoedLines(o: Options, buffer: seq<byte>, data: seq<byte>)
    requires o.echo && o.binary == map[] && o.fallback == []
    ensures Handle(o, buffer, data) == (data + Lines(o, buffer, data).0, Lines(o, buffer, data).1)
  {
    hide Lines;
    var replies := Lines(o, buffer, data).0;
    assert data + [] + replies == data + replies;
  }

  /** With echo on, two calls and one differ unless what the first chunk is answered commutes with the second. */
  lemma {:induction false} EchoSeesChunkingUnlessItCommutes(o: Options, buffer: seq<byte>, a: seq<byte>, b: seq<byte>)
    requires o.echo && o.binary == map[] && o.fallback == [] && FirstNewline(buffer) == |buffer|
    ensures
      var answer := Lines(o, buffer, a).0;
      HandleAll(o, buffer, [a, b]).0 == Handle(o, buffer, a + b).0 <==> answer + b == b + answer
  {
    hide Handle, Lines;
    var (first, rest) := Lines(o, buffer, a);
    var (second, last) := Lines(o, rest, b);
    LinesIgnoreChunking(o, buffer, a, b);
    HandleIsEchoedLines(o, buffer, a);
    HandleIsEchoedLines(o, rest, b);
    HandleIsEchoedLines(o, buffer, a + b);
    assert [a, b][1..] == [b] && [b][1..] == [];
    assert HandleAll(o, last, []) == ([], last);
    assert HandleAll(o, rest, [b]).0 == b + second + [] == b + second;
    assert HandleAll(o, buffer, [a, b]).0 == a + first + (b + second);
    MiddlesCommute(a, first, b, second);
  }

  /** Every complete line of the buffer is one the script has no response for. */
  predicate Silent(o: Options, buffer: seq<byte>)
    decreases |buffer|
  {
    var i := FirstNewline(buffer);
    i == |buffer| || (o.respond(RStrip(buffer[..i])).None? && Silent(o, buffer[i + 1..]))
  }

  lemma {:induction false} SilentIsUnanswered(o: Options, buffer: seq<byte>)
    requires Silent(o, buffer)
    ensures LineReplies(o, buffer) == []
    decreases |buffer|
  {
    var i := FirstNewline(buffer);
    if i < |buffer| {
      SilentIsUnanswered(o, buffer[i + 1..]);
    }
  }

  /** With echo on, a chunk that completes no answered line can be joined with whatever follows. */
  lemma {:induction false} EchoIgnoresSilentChunks(o: Options, buffer: seq<byte>, a: seq<byte>, b: seq<byte>)
    requires o.echo && o.binary == map[] && o.fallback == [] && FirstNewline(buffer) == |buffer|
    requires o.hasLines ==> Silent(o, buffer + a)
    ensures HandleAll(o, buffer, [a, b]).0 == Handle(o, buffer, a + b).0
  {
    if o.hasLines {
      SilentIsUnanswered(o, buffer + a);
    }
    hide Handle, HandleAll;
    assert [] + b == b == b + [];
    EchoSeesChunkingUnlessItCommutes(o, buffer, a, b);
  }

  /** Any other chunk can be told apart by the byte that follows. */
  lemma {:induction false} EchoShowsAnsweredChunks(o: Options, buffer: seq<byte>, a: seq<byte>, x: byte)
    requires o.echo && o.binary == map[] && o.fallback == [] && FirstNewline(buffer) == |buffer|
    requires Lines(o, buffer, a).0 != [] && x != Lines(o, buffer, a).0[0]
    ensures HandleAll(o, buffer, [a, [x]]).0 != Handle(o, buffer, a + [x]).0
  {
    hide Handle, HandleAll, Lines;
    var answer := Lines(o, buffer, a).0;
    assert (answer + [x])[0] != ([x] + answer)[0];
    EchoSeesChunkingUnlessItCommutes(o, buffer, a, [x]);
  }

  /** A script that echoes and answers every line with one byte tells two chunks from one. */
  lemma EchoWitness()
    ensures
      var o := Options(true, true, _ => Some([1]), map[], []);
      HandleAll(o, [], [[NEWLINE], [65]]).0 != Handle(o, [], [NEWLINE] + [65]).0
  {
    var o := Options(true, true, _ => Some([1]), map[], []);
    assert [] + [NEWLINE] == [NEWLINE];
    FirstLine(o, [NEWLINE], 0);
    assert [NEWLINE][1..] == [];
    NoLine(o, []);
    assert LineReplies(o, [NEWLINE]) == [1] + [];
    EchoShowsAnsweredChunks(o, [], [NEWLINE], 65);
  }

  // ---- Binary and default responses ----

  /** Without echo and lines a chunk is answered by the response to exactly these bytes, or by default. */
  lemma {:induction false} BinaryOrDefault(o: Options, buffer: seq<byte>, data: seq<byte>)
    requires !o.echo && !o.hasLines && data != []
    ensures
      Handle(o, buffer, data)
        == (if data in o.binary && o.binary[data] != [] then o.binary[data] else o.fallback, buffer)
  {
    var none: seq<byte> := [];
    assert none + none + none == none;
    if data in o.binary {
      assert none + o.binary[data] + [] == o.binary[data];
    }
  }

  /** With a default response no chunk goes unanswered; without echo, binary and lines it is the only answer. */
  lemma {:induction false} DefaultAnswersEverything(o: Options, buffer: seq<byte>, data: seq<byte>)
    requires data != [] && o.fallback != []
    ensures Handle(o, buffer, data).0 != []
    ensures !o.echo && data !in o.binary && (o.hasLines ==> Silent(o, buffer + data)) ==>
      Handle(o, buffer, data).0 == o.fallback
  {
    if o.hasLines && Silent(o, buffer + data) {
      SilentIsUnanswered(o, buffer + data);
    }
    hide LineReplies, Residue, Silent;
  }

  /** Echo, binary response and line replies come in this order, and then there is no default. */
  lemma {:induction false} AnswersInOrder(o: Options, buffer: seq<byte>, data: seq<byte>)
    requires o.echo && o.hasLines && data != [] && data in o.binary
    ensures Handle(o, buffer, data).0 == data + o.binary[data] + LineReplies(o, buffer + data)
    ensures Handle(o, buffer, data).1 == Residue(buffer + data)
  {
    hide LineReplies, Residue;
  }

  /** Nothing in, nothing out, unless the script answers the empty chunk. */
  lemma {:induction false} NothingIsUnanswered(o: Options, buffer: seq<byte>)
    requires [] !in o.binary
    ensures Handle(o, buffer, []) == ([], buffer)
  {
    var none: seq<byte> := [];
    assert none + none + none == none;
  }

  // The template object of the daemon.

  class UartScriptTemplate {
    const options: Options
    var lineBuffer: seq<byte>

    constructor (options: Options)
      ensures this.options == options && lineBuffer == []
    {
      this.options := options;
      lineBuffer := [];
    }

    method HandleUart(data: seq<byte>) returns (reply: seq<byte>)
      modifies this
      ensures (reply, lineBuffer) == Handle(options, old(lineBuffer), data)
    {
      hide LineReplies, Residue;
      reply := [];
      if options.echo && data != [] {
        reply := reply + data;
      }
      if data in options.binary {
        reply := reply + options.binary[data];
      }
      assert reply
        == (if options.echo then data else []) + (if data in options.binary then options.binary[data] else []);
      if options.hasLines && data != [] {
        var found := HandleLines(data);
        reply := reply + found;
      } else {
        assert reply + [] == reply;
      }
      if reply == [] && data != [] && options.fallback != [] {
        reply := reply + options.fallback;
        assert reply == options.fallback;
      }
    }

    method HandleLines(data: seq<byte>) returns (reply: seq<byte>)
      modifies this
      ensures reply == LineReplies(options, old(lineBuffer) + data)
      ensures lineBuffer == Residue(old(lineBuffer) + data)
    {
      hide LineReply, LineReplies, Residue, FirstNewline;
      lineBuffer := lineBuffer + data;
      ghost var all := lineBuffer;
      reply := [];
      assert reply + LineReplies(options, all) == LineReplies(options, all);
      while FirstNewline(lineBuffer) < |lineBuffer|
        invariant LineReplies(options, all) == reply + LineReplies(options, lineBuffer)
        invariant Residue(all) == Residue(lineBuffer)
        decreases |lineBuffer|
      {
        var i := FirstNewline(lineBuffer);
        var answer := LineReply(options, lineBuffer[..i]);
        FirstLine(options, lineBuffer, i);
        Regroup(reply, answer, LineReplies(options, lineBuffer[i + 1..]));
        reply := reply + answer;
        lineBuffer := lineBuffer[i + 1..];
      }
      NoLine(options, lineBuffer);
      assert reply + [] == reply;
    }
  }
}
