/** The evidence chain in terms of its rows and texts (evidence_integrity.go). */
module EvidenceFormat {
  import opened Hashing
  import opened Text
  import opened EvidenceChain

  // ---------------------------------------------------------------------------------------
  // Texts.
  // ---------------------------------------------------------------------------------------

  const DIGITS := "0123456789abcdef"

  function PlaceOf(c: char): int {
    if '0' <= c <= '9' then c as int - '0' as int else if 'a' <= c <= 'f' then c as int - 'a' as int + 10 else -1
  }

  /** The number that a decimal text stands for. */
  function ValueOf(text: string): int {
    if text == "" then 0
    else if text[0] == '-' then -ValueOf(text[1..])
    else ValueOf(text[..|text| - 1]) * 10 + PlaceOf(text[|text| - 1])
  }

  lemma {:induction false} DecimalNatMeans(n: nat)
    ensures ValueOf(DecimalNat(n)) == n
    ensures n > 0 ==> DecimalNat(n)[0] != '0'
  {
    var text := DecimalNat(n);
    if n >= 10 {
      DecimalNatMeans(n / 10);
      assert text[..|text| - 1] == DecimalNat(n / 10);
      assert text[0] == DecimalNat(n / 10)[0];
    } else {
      assert text[..0] == "";
    }
  }

  /** The decimal text of a number reads back as that number, has a minus sign exactly if it is negative,
      and no leading zero. */
  lemma DecimalMeans(n: int)
    ensures ValueOf(Decimal(n)) == n
    ensures n != 0 ==> Decimal(n)[if n < 0 then 1 else 0..] != "" && Decimal(n)[if n < 0 then 1 else 0] != '0'
    ensures Decimal(n)[0] == '-' <==> n < 0
  {
    if n < 0 {
      DecimalNatMeans(-n);
      assert Decimal(n)[1..] == DecimalNat(-n);
    } else {
      DecimalNatMeans(n);
    }
  }

  /** Each byte is two lower-case hexadecimal digits, the high one first. */
  lemma {:induction false} HexMeans(bytes: seq<Byte>, i: nat)
    requires i < |bytes|
    ensures Hex(bytes)[2 * i] in DIGITS && Hex(bytes)[2 * i + 1] in DIGITS
    ensures bytes[i] as int == 16 * PlaceOf(Hex(bytes)[2 * i]) + PlaceOf(Hex(bytes)[2 * i + 1])
  {
    if i > 0 {
      HexMeans(bytes[1..], i - 1);
    } else {
      OneByte(bytes[0]);
    }
  }

  lemma OneByte(b: Byte)
    ensures HexDigit(b as int / 16) in DIGITS && HexDigit(b as int % 16) in DIGITS
    ensures b as int == 16 * PlaceOf(HexDigit(b as int / 16)) + PlaceOf(HexDigit(b as int % 16))
  {
    OneDigit(b as int / 16);
    OneDigit(b as int % 16);
  }

  lemma OneDigit(n: nat)
    requires n < 16
    ensures HexDigit(n) == DIGITS[n] && HexDigit(n) in DIGITS && PlaceOf(HexDigit(n)) == n
  {
  }

  /** The hashed text of an event: its seven fields in this order, with bars between them. */
  lemma EncodingMeans(f: Fields)
    ensures Canonical(f) == Decimal(f.resultId) + "|" + Decimal(f.sequence) + "|" + f.eventType + "|" + f.prior + "|" + f.payloadSha
                            + "|" + Decimal(f.policy) + "|" + Decimal(f.artifact)
  {
    hide Decimal;
    var rest := f.eventType + "|" + f.prior + "|" + f.payloadSha + "|" + Decimal(f.policy) + "|" + Decimal(f.artifact);
    var front := Decimal(f.resultId) + "|" + Decimal(f.sequence) + "|";
    assert Canonical(f) == front + rest;
    assert front + rest == front + f.eventType + "|" + f.prior + "|" + f.payloadSha + "|" + Decimal(f.policy) + "|" + Decimal(f.artifact);
  }

  // ---------------------------------------------------------------------------------------
  // The verifier.
  // ---------------------------------------------------------------------------------------

  ghost predicate GoodAt(sha: Sha, resultId: int, events: seq<Event>, i: int)
    requires 0 <= i < |events|
  {
    var e, prior := events[i], if i == 0 then "" else events[i - 1].hash;
    && e.sequence == i + 1
    && e.prior == prior
    && e.hash == Hex(sha(Canonical(Fields(resultId, i + 1, e.eventType, prior, e.payloadSha, e.policy, e.artifact))))
  }

  /** A chain is accepted exactly if the events are numbered from 1, each names the hash of the one before,
      the first none, and each hash is that of the event's own text. */
  lemma {:induction false} AcceptedMeans(sha: Sha, resultId: int, events: seq<Event>)
    ensures Accepted(sha, resultId, events) <==> forall i :: 0 <= i < |events| ==> GoodAt(sha, resultId, events, i)
  {
    hide Canonical, Hex;
    if events != [] {
      var n := |events| - 1;
      AcceptedMeans(sha, resultId, events[..n]);
      assert forall i :: 0 <= i < n ==> (GoodAt(sha, resultId, events[..n], i) <==> GoodAt(sha, resultId, events, i));
      assert EventAccepted(sha, resultId, events[n], n, LastHash(events[..n])) <==> GoodAt(sha, resultId, events, n);
    }
  }

  // ---------------------------------------------------------------------------------------
  // The recorder.
  // ---------------------------------------------------------------------------------------

  const WHITE: set<char> := {' ', '\t', '\n', 11 as char, 12 as char, '\r'}

  /** What a call needs: a result on record, an event type that is not all white space, a known visibility,
      and the services. */
  predicate MayRecord(chains: Chains, input: Input, services: bool) {
    && input.resultId > 0 && input.resultId in chains && services
    && (exists i :: 0 <= i < |input.eventType| && input.eventType[i] !in WHITE)
    && input.visibility in {"", "public", "observer", "restricted"}
  }

  lemma BlankMeans(text: string)
    ensures Blank(text) <==> forall i :: 0 <= i < |text| ==> text[i] in WHITE
  {
    if Blank(text) {
      forall i | 0 <= i < |text|
        ensures text[i] in WHITE
      {
        assert text[i] in text;
      }
    }
    if forall i :: 0 <= i < |text| ==> text[i] in WHITE {
      forall c | c in text
        ensures IsSpace(c)
      {
        var i :| 0 <= i < |text| && text[i] == c;
        assert text[i] in WHITE;
      }
    }
  }

  /** A call adds one event to the result's chain or changes nothing.  It adds one exactly if it has what
      it needs and the hash is new; the event is numbered after the last one, names its hash, carries the
      input's type, the hash of the private payload, and the ids, which are 0 when not positive. */
  lemma RecordMeans(sha: Sha, chains: Chains, input: Input, services: bool)
    ensures
      var after := Recorded(sha, chains, input, services);
      if !MayRecord(chains, input, services) then after == chains
      else
        var chain := chains[input.resultId];
        var n := if chain == [] then 1 else chain[|chain| - 1].sequence + 1;
        var prior := if chain == [] then "" else chain[|chain| - 1].hash;
        var payload := Hex(sha(input.privateJson));
        var hash := Hex(sha(Canonical(Fields(input.resultId, n, input.eventType, prior, payload, input.policy, input.artifact))));
        if exists r, i :: r in chains && 0 <= i < |chains[r]| && chains[r][i].hash == hash then after == chains
        else after == chains[input.resultId := chain + [Event(n, input.eventType, prior, hash, payload,
                                                              if input.policy > 0 then input.policy else 0,
                                                              if input.artifact > 0 then input.artifact else 0)]]
  {
    hide Canonical, Hex;
    BlankMeans(input.eventType);
  }

  /** Two recorded events with one payload hash were made from one private payload. */
  lemma PayloadBinding(sha: Sha, f: seq<Event>, g: seq<Event>, x: Input, y: Input)
    requires NewEvent(sha, f, x).payloadSha == NewEvent(sha, g, y).payloadSha && CollisionFree(sha, {x.privateJson, y.privateJson})
    ensures x.privateJson == y.privateJson
  {
    Sha256HexBinding(sha, x.privateJson, y.privateJson, {x.privateJson, y.privateJson});
  }
}
