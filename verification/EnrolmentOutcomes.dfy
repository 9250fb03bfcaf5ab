/** What becomes of a queued enrolment (biometric_advanced.go), in terms of its fields. */
module EnrolmentOutcomes {
  import opened Options
  import opened Text
  import opened OfflineSync

  /** `text` is `name` but for the case of its letters; `name` is in small letters. */
  predicate Spells(text: string, name: string) {
    |text| == |name| && forall i :: 0 <= i < |text| ==> text[i] == name[i] || ('a' <= name[i] <= 'z' && text[i] as int == name[i] as int - 32)
  }

  lemma SpellsMeans(text: string, name: string)
    requires forall i :: 0 <= i < |name| ==> 'a' <= name[i] <= 'z'
    ensures ToLower(text) == name <==> Spells(text, name)
  {
    if Spells(text, name) {
      assert forall i :: 0 <= i < |text| ==> Lower(text[i]) == name[i];
      assert ToLower(text) == name;
    }
    if ToLower(text) == name {
      forall i | 0 <= i < |text|
        ensures text[i] == name[i] || ('a' <= name[i] <= 'z' && text[i] as int == name[i] as int - 32)
      {
        assert ToLower(text)[i] == Lower(text[i]);
      }
    }
  }

  /** Each modality, in any case, fills its own slot, and no other text is a modality. */
  lemma SlotMeans(modality: string)
    ensures SlotOf(modality) == Some(Fingerprint) <==> Spells(modality, "fingerprint") || Spells(modality, "finger")
    ensures SlotOf(modality) == Some(Facial) <==> Spells(modality, "facial") || Spells(modality, "face")
    ensures SlotOf(modality) == Some(Iris) <==> Spells(modality, "iris")
  {
    SpellsMeans(modality, "fingerprint");
    SpellsMeans(modality, "finger");
    SpellsMeans(modality, "facial");
    SpellsMeans(modality, "face");
    SpellsMeans(modality, "iris");
    hide ToLower, Spells;
  }

  /** Profile `i` is the voter's first. */
  ghost predicate FirstProfile(profiles: seq<Profile>, vin: string, i: int) {
    0 <= i < |profiles| && profiles[i].vin == vin && forall j :: 0 <= j < i ==> profiles[j].vin != vin
  }

  /** The hash that the voter's first profile has in the slot; empty if there is none. */
  lemma EnrolledMeans(profiles: seq<Profile>, vin: string, slot: Slot)
    ensures forall i :: FirstProfile(profiles, vin, i) ==>
      Enrolled(profiles, vin, slot) == if slot in profiles[i].hashes then profiles[i].hashes[slot] else ""
    ensures (forall i :: 0 <= i < |profiles| ==> profiles[i].vin != vin) ==> Enrolled(profiles, vin, slot) == ""
  {
    var k := ProfileOf(profiles, vin);
    forall i | FirstProfile(profiles, vin, i)
      ensures i == k
    {
    }
  }

  /** A row is an error if its modality is unknown, its voter or hash is empty or the profile cannot be
      reached; it is applied if the slot is empty, a duplicate of an equal hash, and in conflict with a
      different one. */
  lemma OutcomeMeans(profiles: seq<Profile>, e: Enrollment, databaseFails: bool)
    ensures var bad := SlotOf(e.modality).None? || e.vin == "" || e.hash == "" || databaseFails;
      && (OutcomeOf(profiles, e, databaseFails) == Error <==> bad)
      && (!bad ==>
            var held := Enrolled(profiles, e.vin, SlotOf(e.modality).value);
            && (OutcomeOf(profiles, e, databaseFails) == Applied <==> held == "")
            && (OutcomeOf(profiles, e, databaseFails) == Duplicate <==> held == e.hash)
            && (OutcomeOf(profiles, e, databaseFails) == Conflict <==> held != "" && held != e.hash))
  {
  }

  /** The status a row is left with: failed after an error, still pending and flagged after a conflict,
      synced otherwise; each counts an attempt and changes nothing else. */
  lemma MarkMeans(e: Enrollment, outcome: Outcome)
    ensures Marked(e, outcome).attempts == e.attempts + 1
    ensures Marked(e, outcome).status == if outcome == Error then Failed else if outcome == Conflict then Pending else Synced
    ensures Marked(e, outcome).conflict == (outcome == Conflict || e.conflict)
    ensures Marked(e, outcome).device == e.device && Marked(e, outcome).vin == e.vin && Marked(e, outcome).modality == e.modality
      && Marked(e, outcome).hash == e.hash
  {
  }

  /** An applied row of a voter without a profile adds one, with this slot only. */
  lemma NewProfileMeans(profiles: seq<Profile>, e: Enrollment)
    requires SlotOf(e.modality).Some? && e.vin != "" && e.hash != "" && forall i :: 0 <= i < |profiles| ==> profiles[i].vin != e.vin
    ensures AfterApply(profiles, e, false) == profiles + [Profile(e.vin, map[SlotOf(e.modality).value := e.hash])]
  {
    EnrolledMeans(profiles, e.vin, SlotOf(e.modality).value);
  }
}
