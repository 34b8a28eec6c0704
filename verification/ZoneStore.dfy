/** The zone store: an in-memory list, a file and a version token under one lock. */
module ZoneStore {
  import opened Common
  import opened Models
  import opened ZoneDocument

  datatype File = Missing | Present(doc: Document, version: int)

  datatype Store = Store(zones: seq<Zone>, file: File)

  datatype StoreError = VersionConflict | ZoneNotFound | DuplicateId | InvalidPolygon | FileMissing | WriteFailed

  datatype Mutation =
    | Create(zone: Zone)
    | Edit(id: ZoneId, name: Option<string>, polygon: Option<seq<(int, int)>>, enabled: Option<bool>)
    | Delete(target: ZoneId)

  /** Where a rewrite can fail: reading the old document, making the temporary file, filling it, or
      renaming it over the old one. */
  datatype Stage = Reading | Creating | Filling | Renaming

  /** What the file system makes of the rewrite: a new version, or an exception. */
  datatype Write = Stored(version: int) | Raises(at: Stage)

  /** The temporary file: made empty, then filled. */
  datatype TempFile = Partial | Full(doc: Document)

  function FirstWithId(zones: seq<Zone>, id: ZoneId): (k: nat)
    ensures k <= |zones|
    ensures k < |zones| ==> zones[k].id == id
    ensures forall i :: 0 <= i < k ==> zones[i].id != id
  {
    if |zones| == 0 || zones[0].id == id then 0 else 1 + FirstWithId(zones[1..], id)
  }

  function Updated(z: Zone, m: Mutation): Zone
    requires m.Edit?
  {
    Zone(z.id,
         if m.name.Some? then m.name.value else z.name,
         if m.enabled.Some? then m.enabled.value else z.enabled,
         if m.polygon.Some? then m.polygon.value else z.polygon)
  }

  /** What a mutation means for a list of zones: append, replace the first with that id, or remove the
      first with that id. */
  function Apply(zones: seq<Zone>, m: Mutation): Result<seq<Zone>, StoreError> {
    match m
    case Create(z) =>
      if FirstWithId(zones, z.id) < |zones| then Err(DuplicateId) else Ok(zones + [z])
    case Edit(id, _, _, _) =>
      var k := FirstWithId(zones, id);
      if k == |zones| then Err(ZoneNotFound)
      else if !ValidZone(Updated(zones[k], m)) then Err(InvalidPolygon)
      else Ok(zones[k := Updated(zones[k], m)])
    case Delete(id) =>
      var k := FirstWithId(zones, id);
      if k == |zones| then Err(ZoneNotFound) else Ok(zones[..k] + zones[k + 1..])
  }

  /** One mutating call: check the version, check and change the list, rewrite the file. A rewrite that
      raises leaves the list changed and the file and version as they were. */
  function Mutate(s: Store, m: Mutation, version: int, write: Write): (Store, Result<(), StoreError>) {
    if s.file.Missing? then (s, Err(FileMissing))
    else if s.file.version != version then (s, Err(VersionConflict))
    else
      match Apply(s.zones, m)
      case Err(e) => (s, Err(e))
      case Ok(zones) => Rewrite(Store(zones, s.file), write)
  }

  function Rewrite(s: Store, write: Write): (Store, Result<(), StoreError>)
    requires s.file.Present?
  {
    var doc := WriteZones(s.file.doc, s.zones);
    if write.Raises? || doc.None? then (s, Err(WriteFailed))
    else (s.(file := Present(doc.value, write.version)), Ok(()))
  }

  class ZoneStore {
    var zones: seq<Zone>
    var file: File

    ghost function View(): Store
      reads this
    {
      Store(zones, file)
    }

    constructor (zones: seq<Zone>, file: File)
      ensures View() == Store(zones, file)
    {
      this.zones := zones;
      this.file := file;
    }

    /** A snapshot of list and version; reading the version of a missing file raises. */
    method ListZones() returns (r: Result<(seq<Zone>, int), StoreError>)
      ensures r == if file.Present? then Ok((zones, file.version)) else Err(FileMissing)
    {
      if file.Missing? {
        return Err(FileMissing);
      }
      r := Ok((zones, file.version));
    }

    method CheckVersion(version: int) returns (r: Result<(), StoreError>)
      ensures r.Ok? <==> file.Present? && file.version == version
      ensures r.Err? ==> r.error == if file.Missing? then FileMissing else VersionConflict
    {
      if file.Missing? {
        return Err(FileMissing);
      }
      if version != file.version {
        return Err(VersionConflict);
      }
      r := Ok(());
    }

    /** The zone itself, as the caller will compare it: no position is returned. */
    method Find(id: ZoneId) returns (r: Result<Zone, StoreError>)
      ensures var k := FirstWithId(zones, id);
              r == if k < |zones| then Ok(zones[k]) else Err(ZoneNotFound)
    {
      for n := 0 to |zones|
        invariant forall i :: 0 <= i < n ==> zones[i].id != id
      {
        if zones[n].id == id {
          FirstIs(zones, id, n);
          return Ok(zones[n]);
        }
      }
      r := Err(ZoneNotFound);
    }

    /** The list's `index`: the first entry equal, as a value, to `zone`. */
    method Index(zone: Zone) returns (k: nat)
      requires zone in zones
      ensures k < |zones| && zones[k] == zone
      ensures forall i :: 0 <= i < k ==> zones[i] != zone
    {
      k := 0;
      while zones[k] != zone
        invariant k < |zones|
        invariant forall i :: 0 <= i < k ==> zones[i] != zone
        decreases |zones| - k
      {
        k := k + 1;
      }
    }

    /** Atomic: at whichever stage it fails, the file and its version are as they were; and what is
        renamed over the file is never a document written in part. */
    method WriteToml(write: Write) returns (r: Result<(), StoreError>)
      requires file.Present?
      modifies this`file
      ensures (View(), r) == Rewrite(old(View()), write)
    {
      if write.Raises? && write.at.Reading? {
        return Err(WriteFailed);
      }
      var doc := WriteZones(file.doc, zones);
      if doc.None? || (write.Raises? && write.at.Creating?) {
        return Err(WriteFailed);
      }
      var temp := Partial;
      if write.Raises? && write.at.Filling? {
        return Err(WriteFailed);
      }
      temp := Full(doc.value);
      if write.Raises? && write.at.Renaming? {
        return Err(WriteFailed);
      }
      file := Present(temp.doc, write.version);
      r := Ok(());
    }

    method CreateZone(zone: Zone, version: int, write: Write) returns (r: Result<(), StoreError>)
      modifies this
      ensures (View(), r) == Mutate(old(View()), Create(zone), version, write)
    {
      r := CheckVersion(version);
      if r.Err? {
        return;
      }
      for n := 0 to |zones|
        invariant View() == old(View())
        invariant forall i :: 0 <= i < n ==> zones[i].id != zone.id
      {
        if zones[n].id == zone.id {
          FirstIs(zones, zone.id, n);
          return Err(DuplicateId);
        }
      }
      zones := zones + [zone];
      r := WriteToml(write);
    }

    method EditZone(id: ZoneId, version: int, name: Option<string>, polygon: Option<seq<(int, int)>>,
                    enabled: Option<bool>, write: Write)
      returns (r: Result<(), StoreError>)
      modifies this
      ensures (View(), r) == Mutate(old(View()), Edit(id, name, polygon, enabled), version, write)
    {
      r := CheckVersion(version);
      if r.Err? {
        return;
      }
      var existing := Find(id);
      if existing.Err? {
        return Err(existing.error);
      }
      var data := existing.value;
      if name.Some? {
        data := data.(name := name.value);
      }
      if polygon.Some? {
        data := data.(polygon := polygon.value);
      }
      if enabled.Some? {
        data := data.(enabled := enabled.value);
      }
      if !ValidZone(data) {
        return Err(InvalidPolygon);
      }
      var k := Index(existing.value);
      EqualIsFirst(zones, id, k);
      zones := zones[k := data];
      r := WriteToml(write);
    }

    method DeleteZone(id: ZoneId, version: int, write: Write) returns (r: Result<(), StoreError>)
      modifies this
      ensures (View(), r) == Mutate(old(View()), Delete(id), version, write)
    {
      r := CheckVersion(version);
      if r.Err? {
        return;
      }
      var existing := Find(id);
      if existing.Err? {
        return Err(existing.error);
      }
      var k := Index(existing.value);
      EqualIsFirst(zones, id, k);
      zones := zones[..k] + zones[k + 1..];
      r := WriteToml(write);
    }
  }

  lemma FirstIs(zones: seq<Zone>, id: ZoneId, k: nat)
    requires k < |zones| && zones[k].id == id
    requires forall i :: 0 <= i < k ==> zones[i].id != id
    ensures FirstWithId(zones, id) == k
  {
  }

  /** Looking a found zone up again by value leads back to the first zone with its id, even when ids or
      whole zones repeat. */
  lemma EqualIsFirst(zones: seq<Zone>, id: ZoneId, k: nat)
    requires FirstWithId(zones, id) < |zones|
    requires k < |zones| && zones[k] == zones[FirstWithId(zones, id)]
    requires forall i :: 0 <= i < k ==> zones[i] != zones[FirstWithId(zones, id)]
    ensures k == FirstWithId(zones, id)
  {
  }

  // ----- What every mutation keeps -----

  ghost predicate WellFormed(zones: seq<Zone>) {
    && (forall i, j :: 0 <= i < j < |zones| ==> zones[i].id != zones[j].id)
    && (forall z :: z in zones ==> ValidZone(z))
  }

  lemma ApplyKeepsWellFormed(zones: seq<Zone>, m: Mutation)
    requires WellFormed(zones) && Apply(zones, m).Ok?
    requires m.Create? ==> ValidZone(m.zone)
    ensures WellFormed(Apply(zones, m).value)
  {
  }

  /** A mutation touches one zone: the new last one, or the first with the given id. */
  lemma ApplyTouchesOne(zones: seq<Zone>, m: Mutation)
    requires Apply(zones, m).Ok?
    ensures var after := Apply(zones, m).value;
            match m
            case Create(z) => after == zones + [z] && forall y :: y in zones ==> y.id != z.id
            case Edit(id, name, polygon, enabled) =>
              && |after| == |zones|
              && exists k :: 0 <= k < |zones| && zones[k].id == id && (forall i :: 0 <= i < k ==> zones[i].id != id)
                   && after[k].id == id
                   && after[k].name == name.GetOr(zones[k].name)
                   && after[k].polygon == polygon.GetOr(zones[k].polygon)
                   && after[k].enabled == enabled.GetOr(zones[k].enabled)
                   && forall i :: 0 <= i < |zones| && i != k ==> after[i] == zones[i]
            case Delete(id) =>
              exists k :: 0 <= k < |zones| && zones[k].id == id && (forall i :: 0 <= i < k ==> zones[i].id != id)
                && after == zones[..k] + zones[k + 1..]
  {
  }

  ghost predicate HasId(zones: seq<Zone>, id: ZoneId) {
    exists z :: z in zones && z.id == id
  }

  /** Zone `z` is the first in the list with the id. */
  ghost predicate IsFirst(zones: seq<Zone>, id: ZoneId, z: Zone) {
    exists k :: 0 <= k < |zones| && zones[k] == z && z.id == id && forall i :: 0 <= i < k ==> zones[i].id != id
  }

  /** Which mutations are possible: a creation when the id is new, a deletion when some zone has it, an
      edit when some zone has it and the first such zone has at least three vertices afterwards. */
  ghost predicate Possible(zones: seq<Zone>, m: Mutation) {
    match m
    case Create(z) => !HasId(zones, z.id)
    case Delete(id) => HasId(zones, id)
    case Edit(id, _, polygon, _) => exists z :: IsFirst(zones, id, z) && |polygon.GetOr(z.polygon)| >= 3
  }

  ghost function Reason(zones: seq<Zone>, m: Mutation): StoreError {
    match m
    case Create(_) => DuplicateId
    case Delete(_) => ZoneNotFound
    case Edit(id, _, _, _) => if HasId(zones, id) then InvalidPolygon else ZoneNotFound
  }

  lemma FoundIff(zones: seq<Zone>, id: ZoneId)
    ensures FirstWithId(zones, id) < |zones| <==> HasId(zones, id)
    ensures forall z ::
              IsFirst(zones, id, z) <==> FirstWithId(zones, id) < |zones| && z == zones[FirstWithId(zones, id)]
  {
    var k := FirstWithId(zones, id);
    if k < |zones| {
      assert zones[k] in zones;
      assert IsFirst(zones, id, zones[k]);
    }
  }

  /** A mutation is applied exactly when it is possible, and refused with the reason otherwise. */
  lemma AppliesIff(zones: seq<Zone>, m: Mutation)
    ensures Apply(zones, m).Ok? <==> Possible(zones, m)
    ensures Apply(zones, m).Err? ==> Apply(zones, m).error == Reason(zones, m)
  {
    match m
    case Create(z) => FoundIff(zones, z.id);
    case Delete(id) => FoundIff(zones, id);
    case Edit(id, _, _, _) =>
      FoundIff(zones, id);
      var k := FirstWithId(zones, id);
      if k < |zones| {
        assert IsFirst(zones, id, zones[k]);
      }
  }

  // ----- Runs -----

  /** What can happen at the store, in the order of the lock; `HandEdit` is someone else's editor. */
  datatype Op = List | Change(m: Mutation, seen: int, write: Write) | HandEdit(doc: Document, version: int)

  datatype Outcome = Listed(zones: seq<Zone>, version: int) | Unreadable | Changed | Refused(error: StoreError) | Edited

  function Do(s: Store, op: Op): (Store, Outcome) {
    match op
    case List => (s, if s.file.Present? then Listed(s.zones, s.file.version) else Unreadable)
    case Change(m, seen, write) =>
      var (s', r) := Mutate(s, m, seen, write);
      (s', if r.Ok? then Changed else Refused(r.error))
    case HandEdit(doc, version) => (s.(file := Present(doc, version)), Edited)
  }

  function After(s: Store, ops: seq<Op>): Store {
    if |ops| == 0 then s else Do(After(s, ops[..|ops| - 1]), ops[|ops| - 1]).0
  }

  function OutcomeAt(s: Store, ops: seq<Op>, k: nat): Outcome
    requires k < |ops|
  {
    Do(After(s, ops[..k]), ops[k]).1
  }

  /** Memory and file agree. */
  ghost predicate InSync(s: Store) {
    s.file.Present? && LoadZones(s.file.doc) == Some(s.zones)
  }

  /** The version a step installs if it succeeds. */
  function NewVersion(op: Op): Option<int> {
    match op
    case List => None
    case Change(_, _, write) => if write.Stored? then Some(write.version) else None
    case HandEdit(_, version) => Some(version)
  }

  /** No failing rewrite, no hand edit that leaves a document without a place for zones, and each new
      version of the file, by the store or by hand, one never seen before. */
  ghost predicate FreshVersions(s: Store, ops: seq<Op>) {
    && s.file.Present? && LoadTable(s.file.doc).Some?
    && (forall k :: 0 <= k < |ops| && ops[k].Change? ==> ops[k].write.Stored?)
    && (forall k :: 0 <= k < |ops| && ops[k].HandEdit? ==> LoadTable(ops[k].doc).Some?)
    && (forall k :: 0 <= k < |ops| ==> NewVersion(ops[k]) != Some(s.file.version))
    && (forall i, j :: 0 <= i < j < |ops| && NewVersion(ops[i]).Some? ==> NewVersion(ops[i]) != NewVersion(ops[j]))
  }

  /** Fresh versions, no editor but the store, and only valid zones created. */
  ghost predicate Undisturbed(s: Store, ops: seq<Op>) {
    && FreshVersions(s, ops)
    && (forall k :: 0 <= k < |ops| ==> !ops[k].HandEdit?)
    && (forall k :: 0 <= k < |ops| && ops[k].Change? && ops[k].m.Create? ==> ValidZone(ops[k].m.zone))
  }

  lemma OneStep(s: Store, ops: seq<Op>, k: nat)
    requires k < |ops|
    ensures After(s, ops[..k + 1]) == Do(After(s, ops[..k]), ops[k]).0
  {
    assert ops[..k + 1][..k] == ops[..k];
  }

  lemma {:induction false} StaysInSync(s: Store, ops: seq<Op>, k: nat)
    requires InSync(s) && Undisturbed(s, ops) && k <= |ops|
    ensures InSync(After(s, ops[..k]))
    ensures Others(After(s, ops[..k]).file.doc) == Others(s.file.doc)
  {
    if k > 0 {
      StaysInSync(s, ops, k - 1);
      OneStep(s, ops, k - 1);
      var before := After(s, ops[..k - 1]);
      var op := ops[k - 1];
      if op.Change? && Apply(before.zones, op.m).Ok? {
        var zones := Apply(before.zones, op.m).value;
        ApplyKeepsValid(before.zones, op.m);
        WriteLoadAgree(before.file.doc, zones, []);
      }
    }
  }

  lemma ApplyKeepsValid(zones: seq<Zone>, m: Mutation)
    requires Apply(zones, m).Ok?
    requires forall z :: z in zones ==> ValidZone(z)
    requires m.Create? ==> ValidZone(m.zone)
    ensures forall z :: z in Apply(zones, m).value ==> ValidZone(z)
  {
  }

  lemma {:induction false} StaysUsable(s: Store, ops: seq<Op>, k: nat)
    requires FreshVersions(s, ops) && k <= |ops|
    ensures var file := After(s, ops[..k]).file;
            file.Present? && LoadTable(file.doc).Some?
  {
    if k > 0 {
      StaysUsable(s, ops, k - 1);
      OneStep(s, ops, k - 1);
      var before, op := After(s, ops[..k - 1]), ops[k - 1];
      if op.Change? && Apply(before.zones, op.m).Ok? {
        WriteLoadAgree(before.file.doc, Apply(before.zones, op.m).value, []);
        WriteLoadAgree(WriteZones(before.file.doc, Apply(before.zones, op.m).value).value, [], []);
      }
    }
  }

  /** With fresh versions a step either changes nothing or installs its own version; and a step by the
      store changes the list and the file together, one by hand the file alone. */
  lemma StepKind(s: Store, ops: seq<Op>, k: nat)
    requires FreshVersions(s, ops) && k < |ops|
    ensures var before, after := After(s, ops[..k]), After(s, ops[..k + 1]);
            && before.file.Present? && after.file.Present?
            && (OutcomeAt(s, ops, k).Changed? ==>
                  && ops[k].Change? && ops[k].seen == before.file.version
                  && Apply(before.zones, ops[k].m) == Ok(after.zones))
            && (OutcomeAt(s, ops, k).Changed? || ops[k].HandEdit? ==> NewVersion(ops[k]) == Some(after.file.version))
            && (!OutcomeAt(s, ops, k).Changed? && !ops[k].HandEdit? ==> after == before)
  {
    StaysUsable(s, ops, k);
    OneStep(s, ops, k);
    var before := After(s, ops[..k]);
    if ops[k].Change? && Apply(before.zones, ops[k].m).Ok? {
      WriteLoadAgree(before.file.doc, Apply(before.zones, ops[k].m).value, []);
    }
  }

  lemma {:induction false} VersionOrigin(s: Store, ops: seq<Op>, k: nat)
    requires FreshVersions(s, ops) && k <= |ops|
    ensures After(s, ops[..k]).file.Present?
    ensures var v := After(s, ops[..k]).file.version;
            v == s.file.version || exists i :: 0 <= i < k && NewVersion(ops[i]) == Some(v)
  {
    if k > 0 {
      VersionOrigin(s, ops, k - 1);
      StepKind(s, ops, k - 1);
    }
  }

  /** The version pins the whole store, hand edits or not: two moments with the same version have the same
      list and the same file. */
  lemma {:induction false} VersionPins(s: Store, ops: seq<Op>, i: nat, j: nat)
    requires FreshVersions(s, ops) && i <= j <= |ops|
    ensures After(s, ops[..i]).file.Present? && After(s, ops[..j]).file.Present?
    ensures After(s, ops[..i]).file.version == After(s, ops[..j]).file.version ==>
              After(s, ops[..i]) == After(s, ops[..j])
  {
    VersionOrigin(s, ops, i);
    VersionOrigin(s, ops, j);
    if i < j {
      VersionPins(s, ops, i, j - 1);
      StepKind(s, ops, j - 1);
    }
  }

  /** No lost update: a change that succeeds with a version is applied to exactly the list that was
      read with that version, however many other calls and hand edits came in between. */
  lemma NoLostUpdate(s: Store, ops: seq<Op>, i: nat, j: nat)
    requires FreshVersions(s, ops) && i < j < |ops|
    requires OutcomeAt(s, ops, i).Listed? && ops[j].Change? && ops[j].seen == OutcomeAt(s, ops, i).version
    requires OutcomeAt(s, ops, j).Changed?
    ensures var seen := OutcomeAt(s, ops, i).zones;
            && After(s, ops[..j]).zones == seen
            && Apply(seen, ops[j].m) == Ok(After(s, ops[..j + 1]).zones)
  {
    VersionPins(s, ops, i, j);
    StepKind(s, ops, j);
  }

  /** At most one change per version succeeds. */
  lemma OneSuccessPerVersion(s: Store, ops: seq<Op>, i: nat, j: nat)
    requires FreshVersions(s, ops) && i < j < |ops|
    requires OutcomeAt(s, ops, i).Changed? && OutcomeAt(s, ops, j).Changed?
    ensures ops[i].seen != ops[j].seen
  {
    StepKind(s, ops, i);
    StepKind(s, ops, j);
    VersionMovesOn(s, ops, i, j);
  }

  /** The version from before a successful change never comes back. */
  lemma {:induction false} VersionMovesOn(s: Store, ops: seq<Op>, i: nat, j: nat)
    requires FreshVersions(s, ops) && i < j <= |ops|
    requires OutcomeAt(s, ops, i).Changed?
    ensures After(s, ops[..i]).file.Present? && After(s, ops[..j]).file.Present?
    ensures After(s, ops[..i]).file.version != After(s, ops[..j]).file.version
    decreases j
  {
    VersionOrigin(s, ops, i);
    StepKind(s, ops, j - 1);
    if i + 1 < j {
      VersionMovesOn(s, ops, i, j - 1);
    }
  }

  /** The changes that succeeded, in order. */
  function Successes(s: Store, ops: seq<Op>): seq<Mutation> {
    if |ops| == 0 then []
    else
      var n := |ops| - 1;
      var before := Successes(s, ops[..n]);
      if ops[n].Change? && OutcomeAt(s, ops, n).Changed? then before + [ops[n].m] else before
  }

  function Fold(zones: seq<Zone>, ms: seq<Mutation>): Result<seq<Zone>, StoreError> {
    if |ms| == 0 then Ok(zones)
    else
      match Fold(zones, ms[..|ms| - 1])
      case Err(e) => Err(e)
      case Ok(zs) => Apply(zs, ms[|ms| - 1])
  }

  lemma FoldGrows(zones: seq<Zone>, ms: seq<Mutation>, m: Mutation)
    requires Fold(zones, ms).Ok?
    ensures Fold(zones, ms + [m]) == Apply(Fold(zones, ms).value, m)
  {
    assert (ms + [m])[..|ms|] == ms;
  }

  lemma UndisturbedPrefix(s: Store, ops: seq<Op>, n: nat)
    requires Undisturbed(s, ops) && n <= |ops|
    ensures Undisturbed(s, ops[..n])
  {
  }

  lemma {:induction false} FoldOfSuccesses(s: Store, ops: seq<Op>)
    requires InSync(s) && Undisturbed(s, ops)
    ensures Fold(s.zones, Successes(s, ops)) == Ok(After(s, ops).zones)
  {
    if |ops| > 0 {
      var n := |ops| - 1;
      UndisturbedPrefix(s, ops, n);
      FoldOfSuccesses(s, ops[..n]);
      StepKind(s, ops, n);
      assert ops[..n + 1] == ops;
      if OutcomeAt(s, ops, n).Changed? {
        FoldGrows(s.zones, Successes(s, ops[..n]), ops[n].m);
      }
    }
  }

  /** The final list is what the successful changes, and only those, make of the first one, in order;
      the file holds the same list, and everything else in it is as it was. */
  lemma FinalIsFold(s: Store, ops: seq<Op>)
    requires InSync(s) && Undisturbed(s, ops)
    ensures Fold(s.zones, Successes(s, ops)) == Ok(After(s, ops).zones)
    ensures InSync(After(s, ops))
    ensures Others(After(s, ops).file.doc) == Others(s.file.doc)
  {
    assert ops[..|ops|] == ops;
    StaysInSync(s, ops, |ops|);
    FoldOfSuccesses(s, ops);
  }

  /** The wrapper, if there is one, is a table. */
  ghost predicate Usable(doc: Document) {
    "counter_cruiser" in doc ==> doc["counter_cruiser"].Table?
  }

  /** A call changes the store exactly when the file is there, its version is the caller's, the mutation is
      possible, and the rewrite goes through; and every refusal has its own reason, in that order. */
  lemma ChangedIff(s: Store, m: Mutation, seen: int, write: Write)
    ensures var outcome := Do(s, Change(m, seen, write)).1;
            && (outcome == Changed <==>
                  && s.file.Present? && s.file.version == seen
                  && Possible(s.zones, m) && write.Stored? && Usable(s.file.doc))
            && (outcome != Changed ==> outcome == Refused(
                  if s.file.Missing? then FileMissing
                  else if s.file.version != seen then VersionConflict
                  else if !Possible(s.zones, m) then Reason(s.zones, m)
                  else WriteFailed))
  {
    AppliesIff(s.zones, m);
  }

  /** A refused call, other than a failing rewrite, changes neither the list nor the file; a failing
      rewrite changes the list alone. */
  lemma RefusedChangesNothing(s: Store, op: Op)
    ensures var (s', outcome) := Do(s, op);
            && (op.List? ==> s' == s)
            && (outcome.Refused? && outcome.error != WriteFailed ==> s' == s)
            && (outcome.Refused? ==> s'.file == s.file)
            && (outcome.Refused? && outcome.error == WriteFailed ==>
                  op.Change? && Apply(s.zones, op.m) == Ok(s'.zones))
  {
  }

  /** Whatever happened before, a change that succeeds leaves the file holding exactly the list in memory:
      a client started from that file gets that list. */
  lemma SuccessSynchronises(s: Store, op: Op)
    requires forall z :: z in s.zones ==> ValidZone(z)
    requires op.Change? && op.m.Create? ==> ValidZone(op.m.zone)
    requires Do(s, op).1.Changed?
    ensures InSync(Do(s, op).0)
    ensures Others(Do(s, op).0.file.doc) == Others(s.file.doc)
  {
    ApplyKeepsValid(s.zones, op.m);
    WriteLoadAgree(s.file.doc, Apply(s.zones, op.m).value, []);
  }

  /** Unique ids and valid polygons survive everything, hand edits and failing rewrites included. */
  lemma {:induction false} RunKeepsWellFormed(s: Store, ops: seq<Op>)
    requires WellFormed(s.zones)
    requires forall k :: 0 <= k < |ops| && ops[k].Change? && ops[k].m.Create? ==> ValidZone(ops[k].m.zone)
    ensures WellFormed(After(s, ops).zones)
  {
    if |ops| > 0 {
      var n := |ops| - 1;
      RunKeepsWellFormed(s, ops[..n]);
      var before := After(s, ops[..n]);
      if ops[n].Change? && Apply(before.zones, ops[n].m).Ok? {
        ApplyKeepsWellFormed(before.zones, ops[n].m);
      }
    }
  }

  // ----- Where the guarantee ends -----

  /** A hand edit of the file gets a version of its own, and that version admits a change, but the list
      in memory is not reloaded: the zones edited by hand survive the next creation exactly when the
      edit left the zone list as it is in memory. Its other keys always survive. */
  lemma HandEditSurvives(s: Store, doc: Document, byHand: seq<Zone>, zone: Zone, version: int, written: int)
    requires LoadZones(doc) == Some(byHand)
    requires forall z :: z in s.zones + [zone] ==> ValidZone(z)
    requires forall z :: z in s.zones ==> z.id != zone.id
    ensures var edited := Do(s, HandEdit(doc, version)).0;
            var (after, outcome) := Do(edited, Change(Create(zone), version, Stored(written)));
            && outcome == Changed
            && Do(edited, List).1 == Listed(s.zones, version)
            && (LoadZones(after.file.doc) == Some(byHand + [zone]) <==> byHand == s.zones)
            && Others(after.file.doc) == Others(doc)
  {
    var k := FirstWithId(s.zones, zone.id);
    assert k == |s.zones|;
    WriteLoadAgree(doc, s.zones + [zone], []);
    if byHand + [zone] == s.zones + [zone] {
      assert byHand == (byHand + [zone])[..|byHand|] == (s.zones + [zone])[..|s.zones|];
    }
  }

  /** It happens: whatever zone was renamed by hand, once another is created through the store the file
      has the old name again. */
  lemma HandEditLost(zone: Zone, name: string, added: Zone)
    requires ValidZone(zone) && ValidZone(added) && zone.id != added.id && zone.name != name
    ensures var renamed := zone.(name := name);
            var s := Store([zone], Present(map[ZONES := ZoneTables([zone])], 1));
            var edited := Do(s, HandEdit(map[ZONES := ZoneTables([renamed])], 2)).0;
            var after := Do(edited, Change(Create(added), 2, Stored(3))).0;
            && InSync(s) && LoadZones(edited.file.doc) == Some([renamed])
            && after.file.Present? && LoadZones(after.file.doc) == Some([zone, added])
  {
    var renamed := zone.(name := name);
    var s := Store([zone], Present(map[ZONES := ZoneTables([zone])], 1));
    assert WRAPPER != ZONES;
    HandEditSurvives(s, map[ZONES := ZoneTables([renamed])], [renamed], added, 2, 3);
    assert [zone] + [added] == [zone, added];
    WriteLoadAgree(map[ZONES := ZoneTables([renamed])], [zone, added], []);
  }

  /** A rewrite that raises leaves the new list readable under the old version: a list read before and
      one read after it under that one version are the same exactly when the change was no change.
      For a creation or a deletion they never are. */
  lemma FailedWriteBreaksSnapshot(s: Store, m: Mutation, at: Stage)
    requires s.file.Present? && Apply(s.zones, m).Ok?
    ensures var (after, outcome) := Do(s, Change(m, s.file.version, Raises(at)));
            && outcome == Refused(WriteFailed)
            && Do(after, List).1 == Listed(Apply(s.zones, m).value, s.file.version)
            && (Do(s, List).1 == Do(after, List).1 <==> Apply(s.zones, m).value == s.zones)
            && (m.Create? || m.Delete? ==> Do(s, List).1 != Do(after, List).1)
  {
  }
}
