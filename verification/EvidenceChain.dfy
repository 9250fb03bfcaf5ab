/** The per-result hash chain of evidence events: the canonical encoding, the recorder and the
    verifier (evidence_integrity.go). */
module EvidenceChain {
  import opened Hashing
  import opened Text

  // ---------------------------------------------------------------------------------------
  // Decimal text (the "%d" verb).
  // ---------------------------------------------------------------------------------------

  function Digit(n: nat): char
    requires n < 10
  {
    ('0' as int + n) as char
  }

  function DecimalNat(n: nat): (text: string)
    ensures text != "" && '|' !in text && '-' !in text
  {
    if n < 10 then [Digit(n)] else DecimalNat(n / 10) + [Digit(n % 10)]
  }

  function Decimal(n: int): (text: string)
    ensures text != "" && '|' !in text
  {
    if n < 0 then "-" + DecimalNat(-n) else DecimalNat(n)
  }

  lemma {:induction false} DecimalNatInjective(m: nat, n: nat)
    requires DecimalNat(m) == DecimalNat(n)
    ensures m == n
  {
    var s, t := DecimalNat(m), DecimalNat(n);
    assert s[|s| - 1] == Digit(m % 10) && t[|t| - 1] == Digit(n % 10);
    if m >= 10 && n >= 10 {
      assert DecimalNat(m / 10) == s[..|s| - 1] && DecimalNat(n / 10) == t[..|t| - 1];
      DecimalNatInjective(m / 10, n / 10);
    }
  }

  lemma DecimalInjective(m: int, n: int)
    requires Decimal(m) == Decimal(n)
    ensures m == n
  {
    assert Decimal(m)[0] == Decimal(n)[0];
    if m < 0 && n < 0 {
      assert Decimal(m)[1..] == DecimalNat(-m) && Decimal(n)[1..] == DecimalNat(-n);
      DecimalNatInjective(-m, -n);
    } else if m >= 0 && n >= 0 {
      DecimalNatInjective(m, n);
    }
  }

  // ---------------------------------------------------------------------------------------
  // The canonical encoding "%d|%d|%s|%s|%s|%d|%d".
  // ---------------------------------------------------------------------------------------

  datatype Fields = Fields(resultId: int, sequence: int, eventType: string, prior: string,
                           payloadSha: string, policy: int, artifact: int)

  function Canonical(f: Fields): string {
    Decimal(f.resultId) + "|"
    + (Decimal(f.sequence) + "|"
       + (f.eventType + "|" + f.prior + "|" + f.payloadSha + "|" + Decimal(f.policy) + "|" + Decimal(f.artifact)))
  }

  function EventHash(sha: Sha, f: Fields): (text: string)
    ensures |text| == 64 && '|' !in text
  {
    Sha256Hex(sha, Canonical(f))
  }

  /** The part before the first bar is determined when it holds no bar itself. */
  lemma SplitFirst(a: string, x: string, b: string, y: string)
    requires '|' !in a && '|' !in b && a + "|" + x == b + "|" + y
    ensures a == b && x == y
  {
    var s := a + "|" + x;
    assert forall i :: 0 <= i < |a| ==> s[i] == a[i] != '|';
    assert forall i :: 0 <= i < |b| ==> s[i] == b[i] != '|';
    assert s[|a|] == '|' && s[|b|] == '|';
    assert a == s[..|a|] && b == s[..|b|] && x == s[|a| + 1..] && y == s[|b| + 1..];
  }

  /** The part after the last bar is determined when it holds no bar itself. */
  lemma SplitLast(a: string, x: string, b: string, y: string)
    requires '|' !in x && '|' !in y && a + "|" + x == b + "|" + y
    ensures a == b && x == y
  {
    var s := a + "|" + x;
    assert forall i :: |a| < i < |s| ==> s[i] == x[i - |a| - 1] != '|';
    assert forall i :: |b| < i < |s| ==> s[i] == y[i - |b| - 1] != '|';
    assert s[|a|] == '|' && s[|b|] == '|';
    assert a == s[..|a|] && b == s[..|b|] && x == s[|a| + 1..] && y == s[|b| + 1..];
  }

  /** The encoding is uniquely decodable even when the event type contains bars. */
  lemma CanonicalInjective(f: Fields, g: Fields)
    requires '|' !in f.prior && '|' !in g.prior && '|' !in f.payloadSha && '|' !in g.payloadSha
    requires Canonical(f) == Canonical(g)
    ensures f == g
  {
    hide Decimal;
    var f3, g3 := f.eventType + "|" + f.prior, g.eventType + "|" + g.prior;
    var f4, g4 := f3 + "|" + f.payloadSha, g3 + "|" + g.payloadSha;
    var f5, g5 := f4 + "|" + Decimal(f.policy), g4 + "|" + Decimal(g.policy);
    var f6, g6 := f5 + "|" + Decimal(f.artifact), g5 + "|" + Decimal(g.artifact);
    SplitFirst(Decimal(f.resultId), Decimal(f.sequence) + "|" + f6, Decimal(g.resultId), Decimal(g.sequence) + "|" + g6);
    SplitFirst(Decimal(f.sequence), f6, Decimal(g.sequence), g6);
    SplitLast(f5, Decimal(f.artifact), g5, Decimal(g.artifact));
    SplitLast(f4, Decimal(f.policy), g4, Decimal(g.policy));
    SplitLast(f3, f.payloadSha, g3, g.payloadSha);
    SplitLast(f.eventType, f.prior, g.eventType, g.prior);
    DecimalInjective(f.resultId, g.resultId);
    DecimalInjective(f.sequence, g.sequence);
    DecimalInjective(f.policy, g.policy);
    DecimalInjective(f.artifact, g.artifact);
  }

  // ---------------------------------------------------------------------------------------
  // Stored chains and the verifier.
  // ---------------------------------------------------------------------------------------

  /** One row of result_evidence_events; a NULL prior hash reads as "", a NULL id as 0. */
  datatype Event = Event(sequence: int, eventType: string, prior: string, hash: string,
                         payloadSha: string, policy: int, artifact: int)

  function LastHash(events: seq<Event>): string {
    if events == [] then "" else events[|events| - 1].hash
  }

  function FieldsOf(resultId: int, e: Event, prior: string): Fields {
    Fields(resultId, e.sequence, e.eventType, prior, e.payloadSha, e.policy, e.artifact)
  }

  ghost predicate EventAccepted(sha: Sha, resultId: int, e: Event, position: nat, prior: string) {
    && e.sequence == position + 1
    && e.prior == prior
    && e.hash == EventHash(sha, FieldsOf(resultId, e, prior))
  }

  ghost predicate Accepted(sha: Sha, resultId: int, events: seq<Event>) {
    events == []
    || (var n := |events| - 1;
        Accepted(sha, resultId, events[..n]) && EventAccepted(sha, resultId, events[n], n, LastHash(events[..n])))
  }

  /** The strings the verifier hashes when it walks a chain. */
  ghost function ChainPreimages(resultId: int, events: seq<Event>): set<string> {
    if events == [] then {}
    else
      var n := |events| - 1;
      ChainPreimages(resultId, events[..n]) + {Canonical(FieldsOf(resultId, events[n], LastHash(events[..n])))}
  }

  method VerifyEvidenceChain(sha: Sha, resultId: int, events: seq<Event>) returns (chainValid: bool)
    ensures chainValid <==> Accepted(sha, resultId, events)
  {
    chainValid := true;
    var priorHash := "";
    for index := 0 to |events|
      invariant priorHash == LastHash(events[..index])
      invariant chainValid <==> Accepted(sha, resultId, events[..index])
    {
      var event := events[index];
      assert events[..index + 1][..index] == events[..index];
      if event.sequence != index + 1 {
        chainValid := false;
      }
      if event.prior != priorHash {
        chainValid := false;
      }
      var expectedHash := EventHash(sha, FieldsOf(resultId, event, priorHash));
      if expectedHash != event.hash {
        chainValid := false;
      }
      priorHash := event.hash;
    }
    assert events[..|events|] == events;
  }

  lemma {:induction false} AcceptedHashesHaveNoBar(sha: Sha, resultId: int, events: seq<Event>)
    requires Accepted(sha, resultId, events)
    ensures '|' !in LastHash(events)
    ensures LastHash(events) == "" <==> events == []
  {
  }

  ghost predicate PlainPayloads(events: seq<Event>) {
    forall e :: e in events ==> '|' !in e.payloadSha
  }

  /** Everything but the chain links themselves. */
  ghost predicate SameContent(a: seq<Event>, b: seq<Event>) {
    |a| == |b|
    && forall i :: 0 <= i < |a| ==>
         a[i].eventType == b[i].eventType && a[i].payloadSha == b[i].payloadSha
         && a[i].policy == b[i].policy && a[i].artifact == b[i].artifact
  }

  /** The last hash fixes the whole chain: two accepted chains of one result that end in the same
      hash are the same sequence of events, unless two of the hashed strings collide. */
  lemma {:induction false} LastHashBinding(sha: Sha, resultId: int, a: seq<Event>, b: seq<Event>)
    requires Accepted(sha, resultId, a) && Accepted(sha, resultId, b)
    requires PlainPayloads(a) && PlainPayloads(b)
    requires LastHash(a) == LastHash(b)
    requires CollisionFree(sha, ChainPreimages(resultId, a) + ChainPreimages(resultId, b))
    ensures SameContent(a, b) && a == b
    decreases |a|
  {
    hide Canonical, Sha256Hex;
    AcceptedHashesHaveNoBar(sha, resultId, a);
    AcceptedHashesHaveNoBar(sha, resultId, b);
    if a != [] {
      var m, n := |a| - 1, |b| - 1;
      var f, g := FieldsOf(resultId, a[m], LastHash(a[..m])), FieldsOf(resultId, b[n], LastHash(b[..n]));
      var all := ChainPreimages(resultId, a) + ChainPreimages(resultId, b);
      Sha256HexBinding(sha, Canonical(f), Canonical(g), all);
      AcceptedHashesHaveNoBar(sha, resultId, a[..m]);
      AcceptedHashesHaveNoBar(sha, resultId, b[..n]);
      CanonicalInjective(f, g);
      CollisionFreeSubset(sha, ChainPreimages(resultId, a[..m]) + ChainPreimages(resultId, b[..n]), all);
      LastHashBinding(sha, resultId, a[..m], b[..n]);
      assert a == a[..m] + [a[m]] && b == b[..n] + [b[n]];
    }
  }

  // ---------------------------------------------------------------------------------------
  // The recorder.
  // ---------------------------------------------------------------------------------------

  /** `privateJson` is the canonical JSON of the private payload. */
  datatype Input = Input(resultId: int, eventType: string, policy: int, artifact: int,
                         visibility: string, privateJson: string)

  type Chains = map<int, seq<Event>>

  predicate Blank(s: string) { forall c :: c in s ==> IsSpace(c) }

  predicate KnownVisibility(v: string) { v in {"", "public", "observer", "restricted"} }

  /** Ids that are not positive are stored as NULL. */
  function StoredId(id: int): int { if id > 0 then id else 0 }

  function NewEvent(sha: Sha, chain: seq<Event>, input: Input): Event {
    var sequence := if chain == [] then 1 else chain[|chain| - 1].sequence + 1;
    var payloadSha := Sha256Hex(sha, input.privateJson);
    Event(sequence, input.eventType, LastHash(chain),
          EventHash(sha, Fields(input.resultId, sequence, input.eventType, LastHash(chain), payloadSha,
                                input.policy, input.artifact)),
          payloadSha, StoredId(input.policy), StoredId(input.artifact))
  }

  ghost predicate HashTaken(chains: Chains, hash: string) {
    exists r, i :: r in chains && 0 <= i < |chains[r]| && chains[r][i].hash == hash
  }

  /** What one call does to the table.  `chains` has a key for every existing result; `services`
      says whether signing and the later inserts of the transaction succeed. */
  ghost function Recorded(sha: Sha, chains: Chains, input: Input, services: bool): Chains {
    if input.resultId <= 0 || Blank(input.eventType) || input.resultId !in chains
       || !KnownVisibility(input.visibility) || !services then chains
    else
      var chain := chains[input.resultId];
      var event := NewEvent(sha, chain, input);
      if HashTaken(chains, event.hash) then chains
      else chains[input.resultId := chain + [event]]
  }

  class EvidenceTable {
    var chains: Chains  // rows of result_evidence_events per result, in sequence order
    var hashes: set<string>  // the unique index on event_hash

    ghost predicate Valid()
      reads this
    {
      forall h :: h in hashes <==> HashTaken(chains, h)
    }

    constructor (results: set<int>)
      ensures Valid() && chains == map r | r in results :: []
    {
      chains := map r | r in results :: [];
      hashes := {};
    }

    method RecordIntegrityEvent(sha: Sha, input: Input, services: bool) returns (ok: bool)
      requires Valid()
      modifies this
      ensures Valid()
      ensures chains == Recorded(sha, old(chains), input, services)
      ensures ok <==> chains != old(chains)
    {
      if input.resultId <= 0 || Blank(input.eventType) {
        return false;
      }
      if input.resultId !in chains {
        return false;
      }
      if !KnownVisibility(input.visibility) {
        return false;
      }
      var previousSequence, priorHash := 0, "";
      var chain := chains[input.resultId];
      if |chain| > 0 {
        previousSequence, priorHash := chain[|chain| - 1].sequence, chain[|chain| - 1].hash;
      }
      var sequence := previousSequence + 1;
      var payloadSha := Sha256Hex(sha, input.privateJson);
      var eventHash := EventHash(sha, Fields(input.resultId, sequence, input.eventType, priorHash, payloadSha,
                                             input.policy, input.artifact));
      if !services || eventHash in hashes {
        return false;
      }
      var event := Event(sequence, input.eventType, priorHash, eventHash, payloadSha,
                         StoredId(input.policy), StoredId(input.artifact));
      AppendAddsHash(chains, input.resultId, event);
      chains := chains[input.resultId := chain + [event]];
      hashes := hashes + {eventHash};
      assert |chains[input.resultId]| == |chain| + 1;
      return true;
    }
  }

  lemma AppendAddsHash(chains: Chains, r: int, event: Event)
    requires r in chains
    ensures forall h :: HashTaken(chains[r := chains[r] + [event]], h) <==> HashTaken(chains, h) || h == event.hash
  {
    var after := chains[r := chains[r] + [event]];
    forall h
      ensures HashTaken(after, h) <==> HashTaken(chains, h) || h == event.hash
    {
      if h == event.hash {
        assert after[r][|chains[r]|].hash == h;
      } else if HashTaken(chains, h) {
        var q, i :| q in chains && 0 <= i < |chains[q]| && chains[q][i].hash == h;
        assert after[q][i].hash == h;
      }
    }
  }

  // ---------------------------------------------------------------------------------------
  // Every run of the recorder.
  // ---------------------------------------------------------------------------------------

  datatype Call = Call(input: Input, services: bool)

  ghost function Run(sha: Sha, chains: Chains, calls: seq<Call>): Chains {
    if calls == [] then chains
    else
      var n := |calls| - 1;
      Recorded(sha, Run(sha, chains, calls[..n]), calls[n].input, calls[n].services)
  }

  ghost predicate AllAccepted(sha: Sha, chains: Chains) {
    forall r :: r in chains ==> Accepted(sha, r, chains[r])
  }

  ghost predicate AllEmpty(chains: Chains) { forall r :: r in chains ==> chains[r] == [] }

  lemma {:induction false} AcceptedSequences(sha: Sha, resultId: int, events: seq<Event>)
    requires Accepted(sha, resultId, events) && events != []
    ensures events[|events| - 1].sequence == |events|
  {
  }

  /** An event appended to an accepted chain is accepted exactly when neither id was negative:
      a negative id is hashed as given but stored as NULL. */
  lemma NewEventAccepted(sha: Sha, chain: seq<Event>, input: Input)
    requires Accepted(sha, input.resultId, chain)
    ensures input.policy >= 0 && input.artifact >= 0 ==> Accepted(sha, input.resultId, chain + [NewEvent(sha, chain, input)])
    ensures
      var hashed := Fields(input.resultId, |chain| + 1, input.eventType, LastHash(chain), Sha256Hex(sha, input.privateJson),
                           input.policy, input.artifact);
      var reread := hashed.(policy := StoredId(input.policy), artifact := StoredId(input.artifact));
      CollisionFree(sha, {Canonical(hashed), Canonical(reread)}) ==>
        (Accepted(sha, input.resultId, chain + [NewEvent(sha, chain, input)]) <==> input.policy >= 0 && input.artifact >= 0)
  {
    hide Canonical;
    var event := NewEvent(sha, chain, input);
    assert (chain + [event])[..|chain|] == chain;
    if chain != [] {
      AcceptedSequences(sha, input.resultId, chain);
    }
    AcceptedHashesHaveNoBar(sha, input.resultId, chain);
    var hashed := Fields(input.resultId, |chain| + 1, input.eventType, LastHash(chain), Sha256Hex(sha, input.privateJson),
                         input.policy, input.artifact);
    var reread := hashed.(policy := StoredId(input.policy), artifact := StoredId(input.artifact));
    assert event.hash == EventHash(sha, hashed);
    assert FieldsOf(input.resultId, event, LastHash(chain)) == reread;
    if CollisionFree(sha, {Canonical(hashed), Canonical(reread)}) && EventHash(sha, hashed) == EventHash(sha, reread) {
      Sha256HexBinding(sha, Canonical(hashed), Canonical(reread), {Canonical(hashed), Canonical(reread)});
      CanonicalInjective(hashed, reread);
    }
  }

  /** Every chain built by any run of recorder calls with non-negative ids passes the verifier. */
  lemma {:induction false} RunsAreAccepted(sha: Sha, chains: Chains, calls: seq<Call>)
    requires AllEmpty(chains)
    requires forall c :: c in calls ==> c.input.policy >= 0 && c.input.artifact >= 0
    ensures AllAccepted(sha, Run(sha, chains, calls))
  {
    if calls != [] {
      var n := |calls| - 1;
      RunsAreAccepted(sha, chains, calls[..n]);
      var before, input := Run(sha, chains, calls[..n]), calls[n].input;
      assert calls[n] in calls;
      if input.resultId in before {
        NewEventAccepted(sha, before[input.resultId], input);
      }
    }
  }
}
