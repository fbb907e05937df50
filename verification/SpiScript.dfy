/** The scripted SPI template: fixed responses, or a small serial flash, one reply byte per clocked byte. */
module SpiScript {
  import opened Words
  import opened Wire
  import SpiModel

  /** The template's options and the flash latches: status register, write enable, busy reads left. */
  datatype Script = Script(
    responses: map<seq<byte>, seq<byte>>, prefixes: seq<(seq<byte>, seq<byte>)>, fallback: seq<byte>,
    echo: bool, jedecId: seq<byte>, busyCycles: nat, status: byte, writeEnabled: bool, busyReads: nat)

  const WRITE_STATUS: byte := 0x01
  const WRITE_DISABLE: byte := 0x04
  const READ_STATUS: byte := 0x05
  const WRITE_ENABLE: byte := 0x06
  const READ_ID: byte := 0x9F

  /** The status register without its two lowest bits. */
  function Upper(status: byte): (r: byte) {
    status - status % 4
  }

  function StatusByte(s: Script): (r: byte) {
    Upper(s.status) + (if s.writeEnabled then 2 else 0) + (if s.busyReads > 0 then 1 else 0)
  }

  function Repeat(b: byte, n: nat): (s: seq<byte>)
    ensures |s| == n
  {
    seq(n, _ => b)
  }

  function Otherwise(s: Script, tx: seq<byte>): seq<byte> {
    if s.echo then tx else s.fallback
  }

  /** The response of the first prefix that tx starts with. */
  function PrefixResponse(prefixes: seq<(seq<byte>, seq<byte>)>, tx: seq<byte>): Option<seq<byte>> {
    if prefixes == [] then None
    else if prefixes[0].0 <= tx then Some(prefixes[0].1)
    else PrefixResponse(prefixes[1..], tx)
  }

  function FlashResponse(s: Script, tx: seq<byte>, length: nat): (Script, seq<byte>)
    requires tx != []
  {
    var opcode := tx[0];
    if opcode == WRITE_ENABLE then (s.(writeEnabled := true), [])
    else if opcode == WRITE_DISABLE then (s.(writeEnabled := false), [])
    else if opcode == READ_STATUS then
      (s.(busyReads := if s.busyReads > 0 then s.busyReads - 1 else 0),
       Repeat(StatusByte(s), if length < 1 then 1 else length))
    else if opcode == READ_ID then (s, s.jedecId)
    else if opcode == WRITE_STATUS && |tx| >= 2 && s.writeEnabled then
      (s.(status := Upper(tx[1]), writeEnabled := false, busyReads := s.busyCycles), [])
    else (s, Otherwise(s, tx))
  }

  function Response(s: Script, tx: seq<byte>, length: nat): (Script, seq<byte>) {
    if s.jedecId != [] && tx != [] then FlashResponse(s, tx, length)
    else if tx in s.responses then (s, s.responses[tx])
    else if PrefixResponse(s.prefixes, tx).Some? then (s, PrefixResponse(s.prefixes, tx).value)
    else (s, Otherwise(s, tx))
  }

  /** Cut or zero-padded to the transfer's length. */
  function Fit(response: seq<byte>, length: nat): (r: seq<byte>)
    ensures |r| == length
    ensures forall i :: 0 <= i < length ==> r[i] == if i < |response| then response[i] else 0
  {
    if |response| < length then response + Zeros(length - |response|) else response[..length]
  }

  function Handle(s: Script, tx: seq<byte>, length: nat): (r: (Script, seq<byte>))
    ensures |r.1| == length
  {
    var (s', response) := Response(s, tx, length);
    (s', Fit(response, length))
  }

  function TotalLen(rs: seq<SpiModel.Request>): nat {
    if rs == [] then 0 else TotalLen(Init(rs)) + Last(rs).len
  }

  /** A whole message; its reply always has the total length of its transfers. */
  function HandleAll(s: Script, rs: seq<SpiModel.Request>): (r: (Script, seq<byte>))
    ensures |r.1| == TotalLen(rs)
    decreases |rs|
  {
    if rs == [] then (s, [])
    else
      var (s1, reply) := HandleAll(s, Init(rs));
      var (s2, part) := Handle(s1, Last(rs).tx, Last(rs).len);
      (s2, reply + part)
  }

  /** The response is that of the earliest listed prefix that fits, and there is none exactly when none fits. */
  lemma {:induction false} EarliestPrefixWins(prefixes: seq<(seq<byte>, seq<byte>)>, tx: seq<byte>)
    ensures PrefixResponse(prefixes, tx).None? <==> forall j :: 0 <= j < |prefixes| ==> !(prefixes[j].0 <= tx)
    ensures
      forall i :: 0 <= i < |prefixes| && prefixes[i].0 <= tx
                  && (forall j :: 0 <= j < i ==> !(prefixes[j].0 <= tx)) ==>
        PrefixResponse(prefixes, tx) == Some(prefixes[i].1)
  {
    if prefixes != [] {
      EarliestPrefixWins(prefixes[1..], tx);
      assert forall j :: 0 <= j < |prefixes| - 1 ==> prefixes[1..][j] == prefixes[j + 1];
      assert forall j :: 1 <= j < |prefixes| ==> prefixes[j] == prefixes[1..][j - 1];
    }
  }

  // The flash: a status write keeps the device busy for exactly the configured number of status reads.

  function StatusReads(s: Script, n: nat): Script {
    if n == 0 then s else Handle(StatusReads(s, n - 1), [READ_STATUS], 1).0
  }

  lemma {:induction false} BusyCountsDown(s: Script, n: nat)
    requires s.jedecId != []
    ensures StatusReads(s, n) == s.(busyReads := if n < s.busyReads then s.busyReads - n else 0)
  {
    if n > 0 {
      BusyCountsDown(s, n - 1);
    }
  }

  /**
    * After write-enable and a status write, the n-th status read shows the written upper bits, a clear
    * write-enable latch, and the busy bit exactly while n is below the busy cycles; without the enable the
    * status write changes nothing.
    */
  lemma {:induction false} StatusWriteIsBusyThenDone(s: Script, value: byte, len1: nat, len2: nat, n: nat)
    requires s.jedecId != []
    ensures
      var enabled := Handle(s, [WRITE_ENABLE], len1).0;
      var written := Handle(enabled, [WRITE_STATUS, value], len2).0;
      Handle(StatusReads(written, n), [READ_STATUS], 1).1 == [Upper(value) + (if n < s.busyCycles then 1 else 0)]
    ensures !s.writeEnabled ==> Handle(s, [WRITE_STATUS, value], len2).0 == s
  {
    var enabled := Handle(s, [WRITE_ENABLE], len1).0;
    var written := Handle(enabled, [WRITE_STATUS, value], len2).0;
    assert written == s.(status := Upper(value), writeEnabled := false, busyReads := s.busyCycles);
    BusyCountsDown(written, n);
    assert Upper(Upper(value)) == Upper(value);
    var r := Handle(StatusReads(written, n), [READ_STATUS], 1).1;
    assert r[0] == Upper(value) + (if n < s.busyCycles then 1 else 0);
  }

  /** Each transfer answered by a script that has seen nothing before it. */
  function AnsweredAlone(s: Script, rs: seq<SpiModel.Request>): (reply: seq<byte>)
    ensures |reply| == TotalLen(rs)
    decreases |rs|
  {
    if rs == [] then [] else AnsweredAlone(s, Init(rs)) + Handle(s, Last(rs).tx, Last(rs).len).1
  }

  /** Without a flash the script keeps no state: every transfer is answered from its own bytes. */
  lemma {:induction false} ScriptWithoutFlashIsStateless(s: Script, rs: seq<SpiModel.Request>)
    requires s.jedecId == []
    ensures HandleAll(s, rs) == (s, AnsweredAlone(s, rs))
    decreases |rs|
  {
    if rs != [] {
      ScriptWithoutFlashIsStateless(s, Init(rs));
    }
  }

  // The template object of the daemon.

  class SpiScriptTemplate {
    const responses: map<seq<byte>, seq<byte>>
    const prefixes: seq<(seq<byte>, seq<byte>)>
    const fallback: seq<byte>
    const echo: bool
    const jedecId: seq<byte>
    const busyCycles: nat
    var status: byte
    var writeEnabled: bool
    var busyReads: nat

    constructor (responses: map<seq<byte>, seq<byte>>, prefixes: seq<(seq<byte>, seq<byte>)>,
                 fallback: seq<byte>, echo: bool, jedecId: seq<byte>, status: byte, busyCycles: nat)
      ensures View() == Script(responses, prefixes, fallback, echo, jedecId, busyCycles, status, false, 0)
    {
      this.responses := responses;
      this.prefixes := prefixes;
      this.fallback := fallback;
      this.echo := echo;
      this.jedecId := jedecId;
      this.busyCycles := busyCycles;
      this.status := status;
      this.writeEnabled := false;
      this.busyReads := 0;
    }

    ghost function View(): Script
      reads this
    {
      Script(responses, prefixes, fallback, echo, jedecId, busyCycles, status, writeEnabled, busyReads)
    }

    method FindPrefix(tx: seq<byte>) returns (r: Option<seq<byte>>)
      ensures r == PrefixResponse(prefixes, tx)
    {
      var i := 0;
      while i < |prefixes|
        invariant i <= |prefixes|
        invariant PrefixResponse(prefixes[i..], tx) == PrefixResponse(prefixes, tx)
      {
        if prefixes[i].0 <= tx {
          return Some(prefixes[i].1);
        }
        assert prefixes[i..][1..] == prefixes[i + 1..];
        i := i + 1;
      }
      r := None;
    }

    method HandleFlash(tx: seq<byte>, length: nat) returns (response: seq<byte>)
      requires tx != []
      modifies this
      ensures (View(), response) == FlashResponse(old(View()), tx, length)
    {
      var opcode := tx[0];
      response := [];
      if opcode == WRITE_ENABLE {
        writeEnabled := true;
      } else if opcode == WRITE_DISABLE {
        writeEnabled := false;
      } else if opcode == READ_STATUS {
        var value: int := Upper(status);
        if writeEnabled {
          value := value + 2;
        }
        if busyReads > 0 {
          value := value + 1;
          busyReads := busyReads - 1;
        }
        response := Repeat(value, if length < 1 then 1 else length);
      } else if opcode == READ_ID {
        response := jedecId;
      } else if opcode == WRITE_STATUS && |tx| >= 2 && writeEnabled {
        status := Upper(tx[1]);
        writeEnabled := false;
        busyReads := busyCycles;
      } else {
        response := if echo then tx else fallback;
      }
    }

    method HandleSpi(tx: seq<byte>, length: nat) returns (r: seq<byte>)
      modifies this
      ensures (View(), r) == Handle(old(View()), tx, length)
    {
      hide FlashResponse, PrefixResponse;
      var response;
      if jedecId != [] && tx != [] {
        response := HandleFlash(tx, length);
      } else if tx in responses {
        response := responses[tx];
      } else {
        var found := FindPrefix(tx);
        response := if found.Some? then found.value else if echo then tx else fallback;
      }
      if |response| < length {
        response := response + Zeros(length - |response|);
        assert response[..length] == response;
      }
      r := response[..length];
    }

    method HandleSpiMessage(transfers: seq<SpiModel.Request>) returns (reply: seq<byte>)
      modifies this
      ensures (View(), reply) == HandleAll(old(View()), transfers)
    {
      hide Handle;
      reply := [];
      var i := 0;
      while i < |transfers|
        invariant i <= |transfers|
        invariant (View(), reply) == HandleAll(old(View()), transfers[..i])
      {
        InitOfPrefix(transfers, i);
        var part := HandleSpi(transfers[i].tx, transfers[i].len);
        reply := reply + part;
        i := i + 1;
      }
      assert transfers[..i] == transfers;
    }
  }
}
