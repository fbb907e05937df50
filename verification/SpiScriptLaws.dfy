/** What the scripted SPI template answers, command by command and over histories. */
module SpiScriptLaws {
  import opened Words
  import opened Wire
  import opened SpiScript
  import SpiModel

  predicate IsFlash(s: Script) {
    s.jedecId != []
  }

  function Opcode(tx: seq<byte>): Option<byte> {
    if tx == [] then None else Some(tx[0])
  }

  /** What a transfer clocks in: the response, then zeros, cut to its length. */
  function Padded(response: seq<byte>, length: nat): (r: seq<byte>)
    ensures |r| == length
  {
    seq(length, i requires 0 <= i => if i < |response| then response[i] else 0)
  }

  /**
   A status read repeats one byte: the upper six bits of the status register, the write-enable latch and
   the busy bit. It uses up one busy cycle.
   */
  lemma {:induction false} StatusReadShowsLatches(s: Script, tx: seq<byte>, length: nat, k: nat)
    requires IsFlash(s) && Opcode(tx) == Some(READ_STATUS) && k < length
    ensures
      var r := Handle(s, tx, length).1[k];
      && r / 4 == s.status / 4 && r / 2 % 2 == (if s.writeEnabled then 1 else 0)
      && r % 2 == (if s.busyReads > 0 then 1 else 0)
    ensures Handle(s, tx, length).0 == s.(busyReads := if s.busyReads > 0 then s.busyReads - 1 else 0)
  {
    assert StatusByte(s) / 4 == s.status / 4;
  }

  /** The identification is read back whole, padded with zeros, and changes nothing. */
  lemma {:induction false} ReadIdReturnsId(s: Script, tx: seq<byte>, length: nat)
    requires IsFlash(s) && Opcode(tx) == Some(READ_ID)
    ensures Handle(s, tx, length) == (s, Padded(s.jedecId, length))
  {
    assert Fit(s.jedecId, length) == Padded(s.jedecId, length);
  }

  /** Any other opcode of a flash changes nothing and is echoed or answered by default. */
  lemma {:induction false} OtherOpcodesAreNeutral(s: Script, tx: seq<byte>, length: nat)
    requires IsFlash(s) && tx != []
    requires tx[0] !in {WRITE_STATUS, WRITE_DISABLE, READ_STATUS, WRITE_ENABLE, READ_ID}
    ensures Handle(s, tx, length) == (s, Padded(if s.echo then tx else s.fallback, length))
  {
    var response := if s.echo then tx else s.fallback;
    assert Fit(response, length) == Padded(response, length);
  }

  /**
   Without a flash, or for an empty transfer, an exact response comes before any prefix, a prefix before
   the echo, and the echo before the default.
   */
  lemma {:induction false} ScriptAnswersInOrder(s: Script, tx: seq<byte>, length: nat)
    requires !IsFlash(s) || tx == []
    ensures
      var response :=
        if tx in s.responses then s.responses[tx]
        else if PrefixResponse(s.prefixes, tx).Some? then PrefixResponse(s.prefixes, tx).value
        else if s.echo then tx
        else s.fallback;
      Handle(s, tx, length) == (s, Padded(response, length))
  {
    hide PrefixResponse;
    var response := Response(s, tx, length).1;
    assert Fit(response, length) == Padded(response, length);
  }

  // ---- Histories ----

  predicate Enables(tx: seq<byte>) {
    Opcode(tx) == Some(WRITE_ENABLE)
  }

  /** A disable clears the latch, and so does a status write that carries a value. */
  predicate Disables(tx: seq<byte>) {
    Opcode(tx) == Some(WRITE_DISABLE) || (Opcode(tx) == Some(WRITE_STATUS) && |tx| >= 2)
  }

  lemma StepLatch(s: Script, tx: seq<byte>, length: nat)
    requires IsFlash(s)
    ensures
      Handle(s, tx, length).0.writeEnabled == (Enables(tx) || (s.writeEnabled && !Disables(tx)))
    ensures IsFlash(Handle(s, tx, length).0)
  {
    hide PrefixResponse;
  }

  predicate NoneDisables(rs: seq<SpiModel.Request>, from: nat) {
    forall j :: from <= j < |rs| ==> !Disables(rs[j].tx)
  }

  /** The i-th transfer sets the latch and none after it clears it. */
  predicate SetsForGood(rs: seq<SpiModel.Request>, i: nat) {
    i < |rs| && Enables(rs[i].tx) && NoneDisables(rs, i + 1)
  }

  lemma NoneDisablesMore(rs: seq<SpiModel.Request>, from: nat)
    requires rs != []
    ensures from < |rs| ==> (NoneDisables(rs, from) <==> NoneDisables(Init(rs), from) && !Disables(Last(rs).tx))
    ensures NoneDisables(rs, |rs|)
  {
    hide Disables;
    assert forall j :: 0 <= j < |rs| - 1 ==> Init(rs)[j] == rs[j];
  }

  lemma SetsForGoodMore(rs: seq<SpiModel.Request>, i: nat)
    requires rs != []
    ensures i < |rs| - 1 ==> (SetsForGood(rs, i) <==> SetsForGood(Init(rs), i) && !Disables(Last(rs).tx))
    ensures SetsForGood(rs, |rs| - 1) <==> Enables(Last(rs).tx)
  {
    hide Disables, NoneDisables;
    NoneDisablesMore(rs, i + 1);
  }

  /**
   After any history of transfers writing is enabled if and only if the last transfer that set or cleared
   the latch set it, or it was set before and no transfer cleared it.
   */
  lemma {:induction false} LatchIsTheLastWord(s: Script, rs: seq<SpiModel.Request>)
    requires IsFlash(s)
    ensures IsFlash(HandleAll(s, rs).0)
    ensures HandleAll(s, rs).0.writeEnabled <==>
      (exists i: nat :: SetsForGood(rs, i)) || (s.writeEnabled && NoneDisables(rs, 0))
    decreases |rs|
  {
    if rs != [] {
      var before := HandleAll(s, Init(rs)).0;
      LatchIsTheLastWord(s, Init(rs));
      StepLatch(before, Last(rs).tx, Last(rs).len);
      NoneDisablesMore(rs, 0);
      EnablesDoesNotDisable(Last(rs).tx);
      hide Handle, Enables, Disables, SetsForGood, NoneDisables, IsFlash;
      forall i: nat
        ensures SetsForGood(rs, i) <==>
          if i == |rs| - 1 then Enables(Last(rs).tx) else SetsForGood(Init(rs), i) && !Disables(Last(rs).tx)
      {
        SetsForGoodMore(rs, i);
        BeyondSetsNothing(rs, i);
      }
      BeyondSetsNothing(Init(rs), |rs| - 1);
      if Enables(Last(rs).tx) {
        assert SetsForGood(rs, |rs| - 1);
      }
    } else {
      assert !exists i: nat :: SetsForGood(rs, i);
    }
  }

  lemma EnablesDoesNotDisable(tx: seq<byte>)
    ensures !(Enables(tx) && Disables(tx))
  {
  }

  lemma BeyondSetsNothing(rs: seq<SpiModel.Request>, i: nat)
    ensures i >= |rs| ==> !SetsForGood(rs, i)
    ensures rs != [] && i >= |rs| ==> !SetsForGood(Init(rs), i)
  {
  }
}
