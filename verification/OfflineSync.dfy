/** Offline enrolment sync (TriggerSync and applyOfflineEnrollment in biometric_advanced.go). */
module OfflineSync {
  import opened Options
  import opened Text

  datatype Slot = Fingerprint | Facial | Iris

  datatype SyncStatus = Pending | Synced | Failed

  /** A queue row; its id is its position, and the queue is read in id order. */
  datatype Enrollment = Enrollment(device: string, vin: string, modality: string, hash: string,
                                   status: SyncStatus, conflict: bool, attempts: nat)

  /** A biometric_profiles row; the empty string stands for NULL as well.  Its id is its position. */
  datatype Profile = Profile(vin: string, hashes: map<Slot, string>)

  datatype Outcome = Applied | Duplicate | Conflict | Error

  function ToLower(s: string): string { seq(|s|, i requires 0 <= i < |s| => Lower(s[i])) }

  function SlotOf(modality: string): Option<Slot> {
    var m := ToLower(modality);
    if m == "fingerprint" || m == "finger" then Some(Fingerprint)
    else if m == "facial" || m == "face" then Some(Facial)
    else if m == "iris" then Some(Iris)
    else None
  }

  predicate WellFormed(e: Enrollment) { SlotOf(e.modality).Some? && e.vin != "" && e.hash != "" }

  /** The first profile of the voter, or the number of profiles if there is none. */
  function ProfileOf(profiles: seq<Profile>, vin: string): (i: nat)
    ensures i <= |profiles|
    ensures i < |profiles| ==> profiles[i].vin == vin
    ensures forall j :: 0 <= j < i ==> profiles[j].vin != vin
  {
    if profiles == [] then 0
    else
      var n := |profiles| - 1;
      var i := ProfileOf(profiles[..n], vin);
      if i < n || profiles[n].vin == vin then i else n + 1
  }

  function HashIn(p: Profile, slot: Slot): string { if slot in p.hashes then p.hashes[slot] else "" }

  /** The template that the voter is enrolled with; empty if none. */
  function Enrolled(profiles: seq<Profile>, vin: string, slot: Slot): string {
    var i := ProfileOf(profiles, vin);
    if i < |profiles| then HashIn(profiles[i], slot) else ""
  }

  function OutcomeOf(profiles: seq<Profile>, e: Enrollment, databaseFails: bool): Outcome {
    if !WellFormed(e) || databaseFails then Error
    else
      var held := Enrolled(profiles, e.vin, SlotOf(e.modality).value);
      if held == "" then Applied
      else if held == e.hash then Duplicate else Conflict
  }

  function AfterApply(profiles: seq<Profile>, e: Enrollment, databaseFails: bool): seq<Profile> {
    if OutcomeOf(profiles, e, databaseFails) != Applied then profiles
    else
      var slot := SlotOf(e.modality).value;
      var i := ProfileOf(profiles, e.vin);
      if i == |profiles| then profiles + [Profile(e.vin, map[slot := e.hash])]
      else profiles[i := profiles[i].(hashes := profiles[i].hashes[slot := e.hash])]
  }

  function Marked(e: Enrollment, outcome: Outcome): Enrollment {
    match outcome
    case Error => e.(status := Failed, attempts := e.attempts + 1)
    case Conflict => e.(status := Pending, conflict := true, attempts := e.attempts + 1)
    case _ => e.(status := Synced, attempts := e.attempts + 1)
  }

  // ---------------------------------------------------------------------------------------
  // One sync as a function of the state before and of the database's failures.
  // ---------------------------------------------------------------------------------------

  /** Queue ids whose profile cannot be read or written, and whose status update is silently lost. */
  datatype Faults = Faults(rows: set<int>, marks: set<int>)

  /** The pending rows of a device among the first `n`, by id. */
  function PendingIds(queue: seq<Enrollment>, device: string, n: nat): (ids: seq<nat>)
    requires n <= |queue|
    ensures forall k :: 0 <= k < |ids| ==> ids[k] < n
  {
    if n == 0 then []
    else PendingIds(queue, device, n - 1)
         + (if queue[n - 1].device == device && queue[n - 1].status == Pending then [n - 1] else [])
  }

  function Profiles(profiles: seq<Profile>, queue: seq<Enrollment>, ids: seq<nat>, faults: Faults): seq<Profile>
    requires forall k :: 0 <= k < |ids| ==> ids[k] < |queue|
  {
    if ids == [] then profiles
    else
      var n := |ids| - 1;
      AfterApply(Profiles(profiles, queue, ids[..n], faults), queue[ids[n]], ids[n] in faults.rows)
  }

  /** What became of the k-th pending row. */
  function OutcomeAt(profiles: seq<Profile>, queue: seq<Enrollment>, ids: seq<nat>, faults: Faults, k: nat): Outcome
    requires forall i :: 0 <= i < |ids| ==> ids[i] < |queue|
    requires k < |ids|
  {
    OutcomeOf(Profiles(profiles, queue, ids[..k], faults), queue[ids[k]], ids[k] in faults.rows)
  }

  /** How many of the rows have one of the wanted outcomes. */
  function CountOf(profiles: seq<Profile>, queue: seq<Enrollment>, ids: seq<nat>, faults: Faults, wanted: set<Outcome>): nat
    requires forall i :: 0 <= i < |ids| ==> ids[i] < |queue|
  {
    if ids == [] then 0
    else
      var n := |ids| - 1;
      CountOf(profiles, queue, ids[..n], faults, wanted) + if OutcomeAt(profiles, queue, ids, faults, n) in wanted then 1 else 0
  }

  lemma CountStep(profiles: seq<Profile>, queue: seq<Enrollment>, ids: seq<nat>, id: nat, faults: Faults, wanted: set<Outcome>)
    requires (forall k :: 0 <= k < |ids| ==> ids[k] < |queue|) && id < |queue|
    ensures CountOf(profiles, queue, ids + [id], faults, wanted)
      == CountOf(profiles, queue, ids, faults, wanted)
         + if OutcomeOf(Profiles(profiles, queue, ids, faults), queue[id], id in faults.rows) in wanted then 1 else 0
  {
    hide OutcomeOf, Profiles;
    assert (ids + [id])[..|ids|] == ids;
  }

  /** Every pending row is counted once. */
  lemma {:induction false} CountsAddUp(profiles: seq<Profile>, queue: seq<Enrollment>, ids: seq<nat>, faults: Faults)
    requires forall i :: 0 <= i < |ids| ==> ids[i] < |queue|
    ensures CountOf(profiles, queue, ids, faults, {Applied, Duplicate}) + CountOf(profiles, queue, ids, faults, {Error})
            + CountOf(profiles, queue, ids, faults, {Conflict}) == |ids|
  {
    hide OutcomeOf, Profiles;
    if ids != [] {
      CountsAddUp(profiles, queue, ids[..|ids| - 1], faults);
      var o := OutcomeAt(profiles, queue, ids, faults, |ids| - 1);
      assert o == Applied || o == Duplicate || o == Conflict || o == Error;
      assert o in {Applied, Duplicate} <==> o == Applied || o == Duplicate;
      assert o in {Error} <==> o == Error;
      assert o in {Conflict} <==> o == Conflict;
    }
  }

  /** The queue after the rows `ids` have been worked on. */
  ghost predicate SyncedQueue(profiles: seq<Profile>, queue: seq<Enrollment>, after: seq<Enrollment>, ids: seq<nat>, faults: Faults)
    requires forall k :: 0 <= k < |ids| ==> ids[k] < |queue|
  {
    && |after| == |queue|
    && (forall i :: 0 <= i < |queue| && i !in ids ==> after[i] == queue[i])
    && (forall k :: 0 <= k < |ids| ==>
          after[ids[k]] == if ids[k] in faults.marks then queue[ids[k]]
                           else Marked(queue[ids[k]], OutcomeAt(profiles, queue, ids, faults, k)))
  }

  lemma SyncedStart(profiles: seq<Profile>, queue: seq<Enrollment>, faults: Faults)
    ensures SyncedQueue(profiles, queue, queue, [], faults) && Profiles(profiles, queue, [], faults) == profiles
    ensures forall wanted :: CountOf(profiles, queue, [], faults, wanted) == 0
  {
  }

  lemma SyncedStep(profiles: seq<Profile>, queue: seq<Enrollment>, before: seq<Enrollment>, after: seq<Enrollment>, ids: seq<nat>, id: nat, faults: Faults)
    requires (forall k :: 0 <= k < |ids| ==> ids[k] < |queue|) && id < |queue| && id !in ids
    requires SyncedQueue(profiles, queue, before, ids, faults)
    requires after == if id in faults.marks then before
                      else before[id := Marked(queue[id], OutcomeOf(Profiles(profiles, queue, ids, faults), queue[id], id in faults.rows))]
    ensures SyncedQueue(profiles, queue, after, ids + [id], faults)
    ensures Profiles(profiles, queue, ids + [id], faults)
         == AfterApply(Profiles(profiles, queue, ids, faults), queue[id], id in faults.rows)
  {
    hide OutcomeOf, AfterApply, Marked;
    var longer := ids + [id];
    var n := |ids|;
    assert longer[..n] == ids;
    forall k | 0 <= k <= n
      ensures after[longer[k]] == if longer[k] in faults.marks then queue[longer[k]]
                                  else Marked(queue[longer[k]], OutcomeAt(profiles, queue, longer, faults, k))
    {
      if k < n {
        assert longer[..k] == ids[..k];
        assert longer[k] == ids[k] && longer[k] in ids;
      }
    }
  }

  class EnrolmentStore {
    var profiles: seq<Profile>
    var queue: seq<Enrollment>

    constructor (profiles: seq<Profile>, queue: seq<Enrollment>)
      ensures this.profiles == profiles && this.queue == queue
    {
      this.profiles, this.queue := profiles, queue;
    }

    method ApplyOfflineEnrollment(e: Enrollment, databaseFails: bool) returns (outcome: Outcome)
      modifies this`profiles
      ensures outcome == OutcomeOf(old(profiles), e, databaseFails)
      ensures profiles == AfterApply(old(profiles), e, databaseFails)
    {
      hide ToLower;
      var slot := SlotOf(e.modality);
      if slot.None? {
        return Error;
      }
      if e.vin == "" || e.hash == "" {
        return Error;
      }
      if databaseFails {
        return Error;
      }
      var i := FindProfile(e.vin);
      if i == |profiles| {
        profiles := profiles + [Profile(e.vin, map[slot.value := e.hash])];
        return Applied;
      }
      var held := HashIn(profiles[i], slot.value);
      if held != "" {
        return if held == e.hash then Duplicate else Conflict;
      }
      profiles := profiles[i := profiles[i].(hashes := profiles[i].hashes[slot.value := e.hash])];
      return Applied;
    }

    method FindProfile(vin: string) returns (i: nat)
      ensures i == ProfileOf(profiles, vin)
    {
      i := 0;
      while i < |profiles| && profiles[i].vin != vin
        invariant i <= |profiles| && forall j :: 0 <= j < i ==> profiles[j].vin != vin
      {
        i := i + 1;
      }
    }

    /** TriggerSync. */
    method TriggerSync(device: string, faults: Faults) returns (synced: nat, failed: nat, conflicts: nat)
      modifies this
      ensures var ids := PendingIds(old(queue), device, |old(queue)|);
        && synced == CountOf(old(profiles), old(queue), ids, faults, {Applied, Duplicate})
        && failed == CountOf(old(profiles), old(queue), ids, faults, {Error})
        && conflicts == CountOf(old(profiles), old(queue), ids, faults, {Conflict})
        && profiles == Profiles(old(profiles), old(queue), ids, faults)
        && SyncedQueue(old(profiles), old(queue), queue, ids, faults)
    {
      hide OutcomeOf, AfterApply, Marked, PendingIds, Profiles, SyncedQueue, CountOf;
      SyncedStart(profiles, queue, faults);
      var ids := PendingIds(queue, device, |queue|);
      PendingAscend(queue, device, |queue|);
      synced, failed, conflicts := 0, 0, 0;
      for k := 0 to |ids|
        invariant synced == CountOf(old(profiles), old(queue), ids[..k], faults, {Applied, Duplicate})
        invariant failed == CountOf(old(profiles), old(queue), ids[..k], faults, {Error})
        invariant conflicts == CountOf(old(profiles), old(queue), ids[..k], faults, {Conflict})
        invariant profiles == Profiles(old(profiles), old(queue), ids[..k], faults)
        invariant SyncedQueue(old(profiles), old(queue), queue, ids[..k], faults)
        invariant |queue| == |old(queue)| && forall j :: k <= j < |ids| ==> queue[ids[j]] == old(queue)[ids[j]]
      {
        var id := ids[k];
        var row := queue[id];
        ghost var before := queue;
        var outcome := ApplyOfflineEnrollment(row, id in faults.rows);
        if outcome == Error {
          failed := failed + 1;
        } else if outcome == Conflict {
          conflicts := conflicts + 1;
        } else {
          synced := synced + 1;
        }
        if id !in faults.marks {
          queue := queue[id := Marked(row, outcome)];
        }
        assert ids[..k + 1] == ids[..k] + [id];
        SyncedStep(old(profiles), old(queue), before, queue, ids[..k], id, faults);
        CountStep(old(profiles), old(queue), ids[..k], id, faults, {Applied, Duplicate});
        CountStep(old(profiles), old(queue), ids[..k], id, faults, {Error});
        CountStep(old(profiles), old(queue), ids[..k], id, faults, {Conflict});
      }
      assert ids[..|ids|] == ids;
    }
  }

  lemma {:induction false} PendingAscend(queue: seq<Enrollment>, device: string, n: nat)
    requires n <= |queue|
    ensures var ids := PendingIds(queue, device, n);
      && (forall i, j :: 0 <= i < j < |ids| ==> ids[i] < ids[j])
      && (forall i :: 0 <= i < n ==> (i in ids <==> queue[i].device == device && queue[i].status == Pending))
  {
    if n > 0 {
      PendingAscend(queue, device, n - 1);
    }
  }

  // ---------------------------------------------------------------------------------------
  // Write once, first valid hash wins.
  // ---------------------------------------------------------------------------------------

  /** One row changes the template of its own voter and slot only, and only if that was empty. */
  lemma ApplyEffect(profiles: seq<Profile>, e: Enrollment, databaseFails: bool, vin: string, slot: Slot)
    ensures Enrolled(AfterApply(profiles, e, databaseFails), vin, slot)
      == if WellFormed(e) && e.vin == vin && SlotOf(e.modality) == Some(slot) && !databaseFails && Enrolled(profiles, vin, slot) == ""
         then e.hash else Enrolled(profiles, vin, slot)
  {
    hide SlotOf, ProfileOf;
    var after := AfterApply(profiles, e, databaseFails);
    ProfilesKept(profiles, e, databaseFails);
    SameFirst(profiles, after, vin);
    if OutcomeOf(profiles, e, databaseFails) == Applied {
      var i := ProfileOf(profiles, e.vin);
      assert after[i].vin == e.vin && HashIn(after[i], SlotOf(e.modality).value) == e.hash;
      if e.vin == vin {
        assert ProfileOf(after, vin) == i;
      } else if ProfileOf(profiles, vin) == |profiles| {
        assert ProfileOf(after, vin) == |after|;
      } else {
        assert after[ProfileOf(profiles, vin)] == profiles[ProfileOf(profiles, vin)];
      }
    }
  }

  lemma ProfilesKept(profiles: seq<Profile>, e: Enrollment, databaseFails: bool)
    ensures |profiles| <= |AfterApply(profiles, e, databaseFails)|
    ensures forall i, s :: 0 <= i < |profiles| && HashIn(profiles[i], s) != "" ==>
      HashIn(AfterApply(profiles, e, databaseFails)[i], s) == HashIn(profiles[i], s)
    ensures forall i :: 0 <= i < |profiles| ==> AfterApply(profiles, e, databaseFails)[i].vin == profiles[i].vin
  {
    hide SlotOf, ProfileOf;
  }

  lemma SameFirst(profiles: seq<Profile>, after: seq<Profile>, vin: string)
    requires |profiles| <= |after| && forall k :: 0 <= k < |profiles| ==> after[k].vin == profiles[k].vin
    ensures ProfileOf(profiles, vin) < |profiles| ==> ProfileOf(after, vin) == ProfileOf(profiles, vin)
    ensures ProfileOf(profiles, vin) == |profiles| ==> ProfileOf(after, vin) >= |profiles|
  {
  }

  /** The first valid queued hash for a voter and slot, in id order. */
  function FirstHash(queue: seq<Enrollment>, ids: seq<nat>, faults: Faults, vin: string, slot: Slot): string
    requires forall k :: 0 <= k < |ids| ==> ids[k] < |queue|
  {
    if ids == [] then ""
    else
      var e := queue[ids[0]];
      if WellFormed(e) && e.vin == vin && SlotOf(e.modality) == Some(slot) && ids[0] !in faults.rows then e.hash
      else FirstHash(queue, ids[1..], faults, vin, slot)
  }

  lemma {:induction false} FirstHashExtends(queue: seq<Enrollment>, ids: seq<nat>, id: nat, faults: Faults, vin: string, slot: Slot)
    requires id < |queue| && forall k :: 0 <= k < |ids| ==> ids[k] < |queue|
    ensures FirstHash(queue, ids + [id], faults, vin, slot)
      == if FirstHash(queue, ids, faults, vin, slot) != "" then FirstHash(queue, ids, faults, vin, slot)
         else FirstHash(queue, [id], faults, vin, slot)
  {
    hide SlotOf;
    if ids == [] {
      assert ids + [id] == [id];
    } else {
      assert (ids + [id])[1..] == ids[1..] + [id];
      FirstHashExtends(queue, ids[1..], id, faults, vin, slot);
    }
  }

  /** After the sync every voter and slot holds what it held before, or else the first valid queued hash
      whose profile access went through. */
  lemma {:induction false} FirstValidHashWins(profiles: seq<Profile>, queue: seq<Enrollment>, ids: seq<nat>, faults: Faults, vin: string, slot: Slot)
    requires forall k :: 0 <= k < |ids| ==> ids[k] < |queue|
    ensures Enrolled(Profiles(profiles, queue, ids, faults), vin, slot)
      == if Enrolled(profiles, vin, slot) != "" then Enrolled(profiles, vin, slot)
         else FirstHash(queue, ids, faults, vin, slot)
  {
    hide AfterApply, Enrolled, SlotOf;
    if ids != [] {
      var n := |ids| - 1;
      FirstValidHashWins(profiles, queue, ids[..n], faults, vin, slot);
      ApplyEffect(Profiles(profiles, queue, ids[..n], faults), queue[ids[n]], ids[n] in faults.rows, vin, slot);
      assert ids == ids[..n] + [ids[n]];
      FirstHashExtends(queue, ids[..n], ids[n], faults, vin, slot);
      assert [ids[n]][1..] == [];
    }
  }

  /** No profile is removed and no stored template, of whichever profile, is ever replaced. */
  lemma {:induction false} WriteOnce(profiles: seq<Profile>, queue: seq<Enrollment>, ids: seq<nat>, faults: Faults)
    requires forall k :: 0 <= k < |ids| ==> ids[k] < |queue|
    ensures var after := Profiles(profiles, queue, ids, faults);
      |profiles| <= |after|
      && forall i, s :: 0 <= i < |profiles| && HashIn(profiles[i], s) != "" ==>
           after[i].vin == profiles[i].vin && HashIn(after[i], s) == HashIn(profiles[i], s)
  {
    hide AfterApply, HashIn;
    if ids != [] {
      var n := |ids| - 1;
      WriteOnce(profiles, queue, ids[..n], faults);
      var mid := Profiles(profiles, queue, ids[..n], faults);
      ProfilesKept(mid, queue[ids[n]], ids[n] in faults.rows);
      VinsKept(profiles, queue, ids, faults);
    }
  }

  lemma {:induction false} VinsKept(profiles: seq<Profile>, queue: seq<Enrollment>, ids: seq<nat>, faults: Faults)
    requires forall k :: 0 <= k < |ids| ==> ids[k] < |queue|
    ensures var after := Profiles(profiles, queue, ids, faults);
      |profiles| <= |after| && forall i :: 0 <= i < |profiles| ==> after[i].vin == profiles[i].vin
  {
    hide AfterApply;
    if ids != [] {
      var n := |ids| - 1;
      VinsKept(profiles, queue, ids[..n], faults);
      ProfilesKept(Profiles(profiles, queue, ids[..n], faults), queue[ids[n]], ids[n] in faults.rows);
    }
  }

  // ---------------------------------------------------------------------------------------
  // Idempotence.
  // ---------------------------------------------------------------------------------------

  /** Nothing to do: malformed, or its slot is taken. */
  predicate Settled(profiles: seq<Profile>, e: Enrollment) {
    WellFormed(e) ==> Enrolled(profiles, e.vin, SlotOf(e.modality).value) != ""
  }

  lemma {:induction false} SettledRowsChangeNothing(profiles: seq<Profile>, queue: seq<Enrollment>, ids: seq<nat>, faults: Faults)
    requires forall k :: 0 <= k < |ids| ==> ids[k] < |queue| && Settled(profiles, queue[ids[k]])
    ensures Profiles(profiles, queue, ids, faults) == profiles
  {
    hide Enrolled, SlotOf;
    if ids != [] {
      SettledRowsChangeNothing(profiles, queue, ids[..|ids| - 1], faults);
    }
  }

  /** A row is settled by the sync unless its profile access failed. */
  lemma {:induction false} SyncSettles(profiles: seq<Profile>, queue: seq<Enrollment>, ids: seq<nat>, faults: Faults, k: nat)
    requires forall i :: 0 <= i < |ids| ==> ids[i] < |queue|
    requires k < |ids| && ids[k] !in faults.rows
    ensures Settled(Profiles(profiles, queue, ids, faults), queue[ids[k]])
  {
    hide AfterApply, Enrolled, SlotOf;
    var e := queue[ids[k]];
    if WellFormed(e) {
      FirstValidHashWins(profiles, queue, ids, faults, e.vin, SlotOf(e.modality).value);
      FirstHashFound(queue, ids, faults, k);
    }
  }

  lemma {:induction false} FirstHashFound(queue: seq<Enrollment>, ids: seq<nat>, faults: Faults, k: nat)
    requires forall i :: 0 <= i < |ids| ==> ids[i] < |queue|
    requires k < |ids| && ids[k] !in faults.rows && WellFormed(queue[ids[k]])
    ensures FirstHash(queue, ids, faults, queue[ids[k]].vin, SlotOf(queue[ids[k]].modality).value) != ""
  {
    hide SlotOf;
    if k > 0 {
      FirstHashFound(queue, ids[1..], faults, k - 1);
    }
  }

  /** A second sync right after the first, whatever fails in it, changes no profile, provided no row lost
      both its profile access and its status update in the first. */
  lemma SecondSyncChangesNothing(profiles: seq<Profile>, queue: seq<Enrollment>, after: seq<Enrollment>, device: string, faults: Faults, again: Faults)
    requires SyncedQueue(profiles, queue, after, PendingIds(queue, device, |queue|), faults) && faults.rows !! faults.marks
    ensures var once := Profiles(profiles, queue, PendingIds(queue, device, |queue|), faults);
      Profiles(once, after, PendingIds(after, device, |after|), again) == once
  {
    hide Enrolled, SlotOf, Profiles, OutcomeAt, Settled;
    var ids := PendingIds(queue, device, |queue|);
    var once := Profiles(profiles, queue, ids, faults);
    var next := PendingIds(after, device, |after|);
    forall j | 0 <= j < |next|
      ensures Settled(once, after[next[j]])
    {
      NextIsSettled(profiles, queue, after, device, faults, once, j);
    }
    SettledRowsChangeNothing(once, after, next, again);
  }

  lemma StillPending(profiles: seq<Profile>, queue: seq<Enrollment>, after: seq<Enrollment>, device: string, faults: Faults, k: nat, once: seq<Profile>)
    requires SyncedQueue(profiles, queue, after, PendingIds(queue, device, |queue|), faults)
    requires k < |PendingIds(queue, device, |queue|)| && after[PendingIds(queue, device, |queue|)[k]].status == Pending
    requires once == Profiles(profiles, queue, PendingIds(queue, device, |queue|), faults)
    ensures var id := PendingIds(queue, device, |queue|)[k];
      Settled(once, after[id]) || (id in faults.rows && id in faults.marks && !Settled(once, queue[id]))
  {
    hide Enrolled, SlotOf, Profiles;
    var ids := PendingIds(queue, device, |queue|);
    if ids[k] !in faults.rows {
      SyncSettles(profiles, queue, ids, faults, k);
    }
  }

  /** A row that lost both its profile access and its status update, and still has something to enrol. */
  ghost predicate LeftOver(once: seq<Profile>, queue: seq<Enrollment>, ids: seq<nat>, faults: Faults, id: nat) {
    id < |queue| && id in ids && id in faults.rows && id in faults.marks && !Settled(once, queue[id])
  }

  /** A second sync without failures changes a profile exactly when there is such a row. */
  lemma SecondSyncChangesIff(profiles: seq<Profile>, queue: seq<Enrollment>, after: seq<Enrollment>, device: string, faults: Faults)
    requires SyncedQueue(profiles, queue, after, PendingIds(queue, device, |queue|), faults)
    ensures
      var ids := PendingIds(queue, device, |queue|);
      var once := Profiles(profiles, queue, ids, faults);
      Profiles(once, after, PendingIds(after, device, |after|), Faults({}, {})) != once
      <==> exists id :: LeftOver(once, queue, ids, faults, id)
  {
    hide Enrolled, SlotOf, Profiles, OutcomeAt, Settled, PendingIds, SyncedQueue, LeftOver;
    var ids := PendingIds(queue, device, |queue|);
    var once := Profiles(profiles, queue, ids, faults);
    var next := PendingIds(after, device, |after|);
    if id :| LeftOver(once, queue, ids, faults, id) {
      LeftOverStaysPending(profiles, queue, after, device, faults, once, id);
      UnsettledIsEnrolled(once, after, next, id);
    } else {
      forall j | 0 <= j < |next|
        ensures Settled(once, after[next[j]])
      {
        NextIsSettled(profiles, queue, after, device, faults, once, j);
      }
      SettledRowsChangeNothing(once, after, next, Faults({}, {}));
    }
  }

  lemma LeftOverStaysPending(profiles: seq<Profile>, queue: seq<Enrollment>, after: seq<Enrollment>, device: string, faults: Faults, once: seq<Profile>, id: nat)
    requires SyncedQueue(profiles, queue, after, PendingIds(queue, device, |queue|), faults)
    requires LeftOver(once, queue, PendingIds(queue, device, |queue|), faults, id)
    ensures |after| == |queue| && after[id] == queue[id] && id in PendingIds(after, device, |after|) && !Settled(once, after[id])
  {
    hide Enrolled, SlotOf, Profiles, OutcomeAt, Settled;
    PendingAscend(queue, device, |queue|);
    PendingAscend(after, device, |after|);
  }

  lemma NextIsSettled(profiles: seq<Profile>, queue: seq<Enrollment>, after: seq<Enrollment>, device: string, faults: Faults, once: seq<Profile>, j: nat)
    requires SyncedQueue(profiles, queue, after, PendingIds(queue, device, |queue|), faults)
    requires once == Profiles(profiles, queue, PendingIds(queue, device, |queue|), faults)
    requires j < |PendingIds(after, device, |after|)|
    requires forall id :: !LeftOver(once, queue, PendingIds(queue, device, |queue|), faults, id)
    ensures Settled(once, after[PendingIds(after, device, |after|)[j]])
  {
    hide Enrolled, SlotOf, Profiles, OutcomeAt, Settled;
    var ids := PendingIds(queue, device, |queue|);
    PendingAscend(queue, device, |queue|);
    PendingAscend(after, device, |after|);
    var id := PendingIds(after, device, |after|)[j];
    assert id in PendingIds(after, device, |after|);
    assert forall i :: 0 <= i < |queue| && i !in ids ==> after[i] == queue[i];
    assert id in ids;
    var k :| 0 <= k < |ids| && ids[k] == id;
    assert !LeftOver(once, queue, ids, faults, id);
    StillPending(profiles, queue, after, device, faults, k, once);
  }

  lemma UnsettledIsEnrolled(once: seq<Profile>, after: seq<Enrollment>, next: seq<nat>, id: nat)
    requires (forall k :: 0 <= k < |next| ==> next[k] < |after|) && id in next && !Settled(once, after[id])
    ensures Profiles(once, after, next, Faults({}, {})) != once
  {
    hide SlotOf, Enrolled;
    var e := after[id];
    var k :| 0 <= k < |next| && next[k] == id;
    FirstValidHashWins(once, after, next, Faults({}, {}), e.vin, SlotOf(e.modality).value);
    FirstHashFound(after, next, Faults({}, {}), k);
  }

  /** The proviso is needed: a row that loses both is still pending, and the second sync enrols it. */
  lemma LostMarkCanApplyLater()
    returns (queue: seq<Enrollment>, faults: Faults)
    ensures SyncedQueue([], queue, queue, PendingIds(queue, "D", |queue|), faults)
    ensures Profiles([], queue, PendingIds(queue, "D", |queue|), faults) == []
    ensures Profiles([], queue, PendingIds(queue, "D", |queue|), Faults({}, {})) != []
  {
    hide ToLower, SlotOf;
    queue := [Enrollment("D", "V", "iris", "h", Pending, false, 0)];
    faults := Faults({0}, {0});
    IrisIsASlot();
    var ids := PendingIds(queue, "D", 1);
    assert PendingIds(queue, "D", 0) == [];
    assert ids == [0];
    OneRow(queue, faults);
    OneRow(queue, Faults({}, {}));
  }

  lemma OneRow(queue: seq<Enrollment>, faults: Faults)
    requires |queue| == 1
    ensures Profiles([], queue, [0], faults) == AfterApply([], queue[0], 0 in faults.rows)
  {
    hide AfterApply;
    var ids: seq<nat> := [0];
    assert ids[..0] == [];
  }

  lemma IrisIsASlot()
    ensures SlotOf("iris") == Some(Iris)
  {
    assert ToLower("iris") == "iris";
  }
}
