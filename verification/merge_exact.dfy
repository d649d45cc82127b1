// Which logs the merger leaves their meaning: at every prefix, for all batch boundaries
// (convertsys/src/ManageSQLiteFile.cpp:438-588).
module MergeExact {
  import opened Records
  import opened MergeRecords

  // The merge map and the database stand for the log applied to db0. The address of the cache plays no
  // part in what is written.
  ghost predicate Means(db0: Database, rs: seq<Record>, cuts: seq<bool>)
    requires |cuts| == |rs|
  {
    var (merged, db) := Run(db0, rs, cuts, "");
    Written(merged, db) == ApplyAll(db0, rs)
  }

  ghost predicate KeepsMeaningAt(db0: Database, rs: seq<Record>, n: nat)
    requires n <= |rs|
  {
    forall cuts: seq<bool> :: |cuts| == n ==> Means(db0, rs[..n], cuts)
  }

  // The row of g after the first n records, written in turn.
  function RowAt(db0: Database, rs: seq<Record>, n: nat, g: Guid): Option<Stream>
    requires n <= |rs|
  {
    Cell(ApplyAll(db0, rs[..n]), g)
  }

  // Record i is an insert whose row is taken.
  predicate FailsAt(db0: Database, rs: seq<Record>, i: nat)
    requires i < |rs|
  {
    IsInsert(rs[i]) && RowAt(db0, rs, i, rs[i].objectGuid) != None
  }

  predicate OnlyFailedInserts(db0: Database, rs: seq<Record>, n: nat, g: Guid)
    requires n <= |rs|
  {
    g in db0 && forall i :: 0 <= i < n && rs[i].objectGuid == g ==> IsInsert(rs[i])
  }

  // Record n may follow the ones before it. An insert is the first record of its guid, or inserts what the
  // row holds, or comes after inserts only of a guid that the database has held all along; and any other
  // record, after an insert that failed, writes what the row holds.
  predicate MayFollow(db0: Database, rs: seq<Record>, n: nat)
    requires n < |rs|
  {
    var r := rs[n];
    var g := r.objectGuid;
    if IsInsert(r) then
      || (forall i :: 0 <= i < n ==> rs[i].objectGuid != g)
      || RowAt(db0, rs, n, g) == Some(r.stream)
      || OnlyFailedInserts(db0, rs, n, g)
    else
      (exists i :: 0 <= i < n && rs[i].objectGuid == g && FailsAt(db0, rs, i)) ==>
        r.optype in {Update, Flush} && RowAt(db0, rs, n, g) == Some(r.stream)
  }

  ghost predicate AllLogged(rs: seq<Record>) {
    forall i :: 0 <= i < |rs| ==> Logged(rs[i])
  }

  // ---------- Rows and runs, record by record ----------

  lemma RowStep(db0: Database, rs: seq<Record>, n: nat, g: Guid)
    requires n < |rs|
    ensures RowAt(db0, rs, n + 1, g)
            == if rs[n].objectGuid == g then WriteCell(RowAt(db0, rs, n, g), rs[n]) else RowAt(db0, rs, n, g)
  {
    assert rs[..n + 1][..n] == rs[..n];
    WriteRecordCell(ApplyAll(db0, rs[..n]), rs[n], g);
  }

  lemma {:induction false} FailedInsertsKeepRow(db0: Database, rs: seq<Record>, n: nat, g: Guid)
    requires n <= |rs| && OnlyFailedInserts(db0, rs, n, g)
    ensures RowAt(db0, rs, n, g) == Cell(db0, g)
  {
    if n > 0 {
      FailedInsertsKeepRow(db0, rs, n - 1, g);
      RowStep(db0, rs, n - 1, g);
    } else {
      assert rs[..0] == [];
    }
  }

  lemma RunStep(db0: Database, rs: seq<Record>, cuts: seq<bool>, n: nat)
    requires |cuts| == |rs| && n < |rs|
    ensures var (merged, db) := Run(db0, rs[..n], cuts[..n], "");
            var m := Merge(merged, "", rs[n]);
            Run(db0, rs[..n + 1], cuts[..n + 1], "") == if cuts[n] then (map[], Written(m, db)) else (m, db)
  {
    assert rs[..n + 1][..n] == rs[..n] && cuts[..n + 1][..n] == cuts[..n];
  }

  // The entry of g, if there is one, was started by record i of the log, over the row as it was then.
  ghost predicate StartedAt(db0: Database, rs: seq<Record>, merged: MergeMap, db: Database, g: Guid, i: nat) {
    && i < |rs| && rs[i].objectGuid == g
    && g in merged && merged[g].objectGuid == g && Logged(merged[g])
    && (IsInsert(merged[g]) <==> IsInsert(rs[i]))
    && Cell(db, g) == RowAt(db0, rs, i, g)
  }

  lemma MergedElsewhere(merged: MergeMap, db: Database, r: Record, g: Guid)
    requires r.objectGuid != g
    ensures var m := Merge(merged, "", r);
            && (g in m <==> g in merged) && (g in m ==> m[g] == merged[g])
            && WrittenCell(m, db, g) == WrittenCell(merged, db, g)
  {
  }

  // The record is merged into an entry started at i, or starts one.
  lemma MergedHere(db0: Database, rs: seq<Record>, merged: MergeMap, db: Database, n: nat, i: nat)
    requires n < |rs| && Logged(rs[n])
    requires var g := rs[n].objectGuid;
             if g in merged then i < n && StartedAt(db0, rs, merged, db, g, i)
             else i == n && Cell(db, g) == RowAt(db0, rs, n, g)
    ensures var m, g := Merge(merged, "", rs[n]), rs[n].objectGuid;
            g in m ==> StartedAt(db0, rs, m, db, g, i)
  {
    var g := rs[n].objectGuid;
    if g in merged {
      AbsorbKeeps(merged[g], rs[n]);
    }
  }

  // One merge keeps the meaning exactly when AbsorbExact says so.
  lemma MergeCellExact(merged: MergeMap, db: Database, r: Record)
    requires Logged(r) && (r.objectGuid in merged ==> Logged(merged[r.objectGuid]))
    ensures var g := r.objectGuid;
            WrittenCell(Merge(merged, "", r), db, g) == WriteCell(WrittenCell(merged, db, g), r)
            <==> g !in merged || KeepsMeaning(Cell(db, g), merged[g], r)
  {
  }

  // ---------- The condition is enough ----------

  ghost predicate Sound(db0: Database, rs: seq<Record>, n: nat, merged: MergeMap, db: Database)
    requires n <= |rs|
  {
    && Written(merged, db) == ApplyAll(db0, rs[..n])
    && forall g :: g in merged ==> exists i: nat :: i < n && StartedAt(db0, rs, merged, db, g, i)
  }

  lemma StartAllows(db0: Database, rs: seq<Record>, n: nat, merged: MergeMap, db: Database, i: nat)
    requires n < |rs| && Logged(rs[n]) && MayFollow(db0, rs, n) && i < n
    requires var g := rs[n].objectGuid;
             StartedAt(db0, rs, merged, db, g, i) && WrittenCell(merged, db, g) == RowAt(db0, rs, n, g)
    ensures KeepsMeaning(Cell(db, rs[n].objectGuid), merged[rs[n].objectGuid], rs[n])
  {
    var r, g := rs[n], rs[n].objectGuid;
    AbsorbExact(Cell(db, g), merged[g], r);
    if IsInsert(r) && RowAt(db0, rs, n, g) != Some(r.stream) {
      assert rs[i].objectGuid == g;
      FailedInsertsKeepRow(db0, rs, i, g);
    }
    if !IsInsert(r) && IsInsert(merged[g]) && Cell(db, g) != None {
      assert FailsAt(db0, rs, i);
    }
  }

  lemma SoundStep(db0: Database, rs: seq<Record>, n: nat, merged: MergeMap, db: Database)
    requires n < |rs| && Logged(rs[n]) && MayFollow(db0, rs, n) && Sound(db0, rs, n, merged, db)
    ensures Sound(db0, rs, n + 1, Merge(merged, "", rs[n]), db)
  {
    var m := Merge(merged, "", rs[n]);
    forall h ensures Cell(Written(m, db), h) == Cell(ApplyAll(db0, rs[..n + 1]), h) {
      SoundAt(db0, rs, n, merged, db, h);
      WrittenIsCellwise(m, db, h);
    }
    SameCells(Written(m, db), ApplyAll(db0, rs[..n + 1]));
    forall h | h in m ensures exists i: nat :: i < n + 1 && StartedAt(db0, rs, m, db, h, i) {
      SoundAt(db0, rs, n, merged, db, h);
    }
  }

  lemma SoundAt(db0: Database, rs: seq<Record>, n: nat, merged: MergeMap, db: Database, h: Guid)
    requires n < |rs| && Logged(rs[n]) && MayFollow(db0, rs, n) && Sound(db0, rs, n, merged, db)
    ensures var m := Merge(merged, "", rs[n]);
            && WrittenCell(m, db, h) == RowAt(db0, rs, n + 1, h)
            && (h in m ==> exists i: nat :: i < n + 1 && StartedAt(db0, rs, m, db, h, i))
  {
    RowStep(db0, rs, n, h);
    WrittenIsCellwise(merged, db, h);
    if h == rs[n].objectGuid {
      SoundHere(db0, rs, n, merged, db);
    } else {
      MergedElsewhere(merged, db, rs[n], h);
      if h in merged {
        var i: nat :| i < n && StartedAt(db0, rs, merged, db, h, i);
        assert StartedAt(db0, rs, Merge(merged, "", rs[n]), db, h, i);
      }
    }
  }

  lemma SoundHere(db0: Database, rs: seq<Record>, n: nat, merged: MergeMap, db: Database)
    requires n < |rs| && Logged(rs[n]) && MayFollow(db0, rs, n) && Sound(db0, rs, n, merged, db)
    ensures var m, g := Merge(merged, "", rs[n]), rs[n].objectGuid;
            && WrittenCell(m, db, g) == WriteCell(RowAt(db0, rs, n, g), rs[n])
            && (g in m ==> exists i: nat :: i < n + 1 && StartedAt(db0, rs, m, db, g, i))
  {
    var g := rs[n].objectGuid;
    WrittenIsCellwise(merged, db, g);
    if g in merged {
      var i: nat :| i < n && StartedAt(db0, rs, merged, db, g, i);
      StartAllows(db0, rs, n, merged, db, i);
      MergedHere(db0, rs, merged, db, n, i);
    } else {
      MergedHere(db0, rs, merged, db, n, n);
    }
    MergeCellExact(merged, db, rs[n]);
  }

  lemma SoundWritten(db0: Database, rs: seq<Record>, n: nat, merged: MergeMap, db: Database)
    requires n <= |rs| && Sound(db0, rs, n, merged, db)
    ensures Sound(db0, rs, n, map[], Written(merged, db))
  {
    var d := Written(merged, db);
    forall g ensures Cell(Written(map[], d), g) == Cell(d, g) {
      WrittenIsCellwise(map[], d, g);
    }
    SameCells(Written(map[], d), d);
  }

  lemma SoundAtStart(db0: Database, rs: seq<Record>)
    ensures Sound(db0, rs, 0, map[], db0)
  {
    assert rs[..0] == [];
    forall g ensures Cell(Written(map[], db0), g) == Cell(db0, g) {
      WrittenIsCellwise(map[], db0, g);
    }
    SameCells(Written(map[], db0), db0);
  }

  ghost predicate RunSound(db0: Database, rs: seq<Record>, cuts: seq<bool>, n: nat)
    requires |cuts| == |rs| && n <= |rs|
  {
    var (merged, db) := Run(db0, rs[..n], cuts[..n], ""); Sound(db0, rs, n, merged, db)
  }

  lemma RunSoundStart(db0: Database, rs: seq<Record>, cuts: seq<bool>)
    requires |cuts| == |rs|
    ensures RunSound(db0, rs, cuts, 0)
  {
    assert rs[..0] == [] && cuts[..0] == [];
    SoundAtStart(db0, rs);
  }

  lemma RunSoundStep(db0: Database, rs: seq<Record>, cuts: seq<bool>, n: nat)
    requires |cuts| == |rs| && n < |rs| && Logged(rs[n]) && MayFollow(db0, rs, n) && RunSound(db0, rs, cuts, n)
    ensures RunSound(db0, rs, cuts, n + 1)
  {
    var (merged, db) := Run(db0, rs[..n], cuts[..n], "");
    SoundStep(db0, rs, n, merged, db);
    SoundWritten(db0, rs, n + 1, Merge(merged, "", rs[n]), db);
    RunStep(db0, rs, cuts, n);
  }

  lemma {:induction false} RunIsSound(db0: Database, rs: seq<Record>, cuts: seq<bool>, n: nat)
    requires |cuts| == |rs| && n <= |rs| && AllLogged(rs)
    requires forall i :: 0 <= i < n ==> MayFollow(db0, rs, i)
    ensures RunSound(db0, rs, cuts, n)
  {
    if n == 0 {
      RunSoundStart(db0, rs, cuts);
    } else {
      RunIsSound(db0, rs, cuts, n - 1);
      RunSoundStep(db0, rs, cuts, n - 1);
    }
  }

  // ---------- The condition is necessary ----------

  // The map is written out after every record before i, and after none from then on.
  function CutBefore(n: nat, i: nat): seq<bool> {
    seq(n, j requires 0 <= j < n => j < i)
  }

  lemma {:induction false} WrittenBefore(db0: Database, rs: seq<Record>, n: nat, i: nat)
    requires n <= i && n <= |rs| && KeepsMeaningAt(db0, rs, n)
    ensures Run(db0, rs[..n], CutBefore(n, i), "") == (map[], ApplyAll(db0, rs[..n]))
  {
    var cuts := CutBefore(n, i);
    assert Means(db0, rs[..n], cuts);
    var (merged, db) := Run(db0, rs[..n], cuts, "");
    assert merged == map[];
    forall g ensures Cell(Written(map[], db), g) == Cell(db, g) {
      WrittenIsCellwise(map[], db, g);
    }
    SameCells(Written(map[], db), db);
  }

  // With the map written out just before record i, that record has started the entry of its guid.
  ghost predicate EntryAt(db0: Database, rs: seq<Record>, i: nat, n: nat)
    requires i < n <= |rs|
  {
    var (merged, db) := Run(db0, rs[..n], CutBefore(n, i), "");
    db == ApplyAll(db0, rs[..i]) && StartedAt(db0, rs, merged, db, rs[i].objectGuid, i)
  }

  lemma EntryStarts(db0: Database, rs: seq<Record>, i: nat)
    requires i < |rs| && Logged(rs[i]) && KeepsMeaningAt(db0, rs, i)
    ensures EntryAt(db0, rs, i, i + 1)
  {
    WrittenBefore(db0, rs, i, i);
    CutStep(db0, rs, i, i);
  }

  lemma EntryNext(db0: Database, rs: seq<Record>, i: nat, n: nat)
    requires i < n < |rs| && Logged(rs[n]) && EntryAt(db0, rs, i, n)
    requires IsInsert(rs[i]) && rs[n].objectGuid == rs[i].objectGuid ==> rs[n].optype != Remove
    ensures EntryAt(db0, rs, i, n + 1)
  {
    var (merged, db) := Run(db0, rs[..n], CutBefore(n, i), "");
    CutStep(db0, rs, n, i);
    EntryKept(db0, rs, merged, db, i, n);
  }

  // The entry is there as long as no removal meets one that an insert started.
  lemma {:induction false} EntryFrom(db0: Database, rs: seq<Record>, i: nat, n: nat)
    requires i < n <= |rs| && AllLogged(rs) && EntryAt(db0, rs, i, i + 1)
    requires IsInsert(rs[i]) ==>
               forall j :: i < j < n && rs[j].objectGuid == rs[i].objectGuid ==> rs[j].optype != Remove
    ensures EntryAt(db0, rs, i, n)
  {
    if n > i + 1 {
      EntryFrom(db0, rs, i, n - 1);
      EntryNext(db0, rs, i, n - 1);
    }
  }

  lemma CutStep(db0: Database, rs: seq<Record>, n: nat, i: nat)
    requires i <= n < |rs|
    ensures var (merged, db) := Run(db0, rs[..n], CutBefore(n, i), "");
            Run(db0, rs[..n + 1], CutBefore(n + 1, i), "") == (Merge(merged, "", rs[n]), db)
  {
    var cuts := CutBefore(n + 1, i);
    assert cuts[..n] == CutBefore(n, i) && rs[..n + 1][..n] == rs[..n] && !cuts[n];
  }

  lemma EntryKept(db0: Database, rs: seq<Record>, merged: MergeMap, db: Database, i: nat, n: nat)
    requires i < n < |rs| && Logged(rs[n]) && StartedAt(db0, rs, merged, db, rs[i].objectGuid, i)
    requires IsInsert(rs[i]) && rs[n].objectGuid == rs[i].objectGuid ==> rs[n].optype != Remove
    ensures StartedAt(db0, rs, Merge(merged, "", rs[n]), db, rs[i].objectGuid, i)
  {
    var g := rs[i].objectGuid;
    if rs[n].objectGuid == g {
      AbsorbKeeps(merged[g], rs[n]);
      SurvivesAbsorb(merged[g], rs[n]);
    } else {
      MergedElsewhere(merged, db, rs[n], g);
    }
  }

  lemma SurvivesAbsorb(first: Record, second: Record)
    requires Logged(first) && Logged(second) && (IsInsert(first) ==> second.optype != Remove)
    ensures Absorb(first, second) != None
  {
  }

  // So the meaning of record n fixes what AbsorbExact asks of it and of the entry that record i starts.
  lemma MeaningNeeds(db0: Database, rs: seq<Record>, i: nat, n: nat)
    requires i < n < |rs| && AllLogged(rs) && rs[i].objectGuid == rs[n].objectGuid
    requires KeepsMeaningAt(db0, rs, i) && KeepsMeaningAt(db0, rs, n) && KeepsMeaningAt(db0, rs, n + 1)
    requires IsInsert(rs[i]) ==>
               forall j :: i < j < n && rs[j].objectGuid == rs[i].objectGuid ==> rs[j].optype != Remove
    ensures var g, r := rs[n].objectGuid, rs[n];
            if FailsAt(db0, rs, i)
            then IsInsert(r) || (r.optype in {Update, Flush} && RowAt(db0, rs, n, g) == Some(r.stream))
            else IsInsert(r) ==> RowAt(db0, rs, n, g) == Some(r.stream)
  {
    var g := rs[n].objectGuid;
    EntryStarts(db0, rs, i);
    EntryFrom(db0, rs, i, n);
    var (merged, db) := Run(db0, rs[..n], CutBefore(n, i), "");
    MeansAfterCut(db0, rs, i, n, g);
    RowStep(db0, rs, n, g);
    MergeCellExact(merged, db, rs[n]);
    AbsorbExact(Cell(db, g), merged[g], rs[n]);
  }

  lemma MeansAfterCut(db0: Database, rs: seq<Record>, i: nat, n: nat, g: Guid)
    requires i <= n < |rs| && KeepsMeaningAt(db0, rs, n) && KeepsMeaningAt(db0, rs, n + 1)
    ensures var (merged, db) := Run(db0, rs[..n], CutBefore(n, i), "");
            && WrittenCell(merged, db, g) == RowAt(db0, rs, n, g)
            && WrittenCell(Merge(merged, "", rs[n]), db, g) == RowAt(db0, rs, n + 1, g)
  {
    var (merged, db) := Run(db0, rs[..n], CutBefore(n, i), "");
    CutStep(db0, rs, n, i);
    assert Means(db0, rs[..n], CutBefore(n, i)) && Means(db0, rs[..n + 1], CutBefore(n + 1, i));
    WrittenIsCellwise(merged, db, g);
    WrittenIsCellwise(Merge(merged, "", rs[n]), db, g);
  }

  lemma NeededToFollow(db0: Database, rs: seq<Record>, n: nat)
    requires n < |rs| && AllLogged(rs) && forall k :: 0 <= k <= n + 1 ==> KeepsMeaningAt(db0, rs, k)
    requires forall k :: 0 <= k < n ==> MayFollow(db0, rs, k)
    ensures MayFollow(db0, rs, n)
  {
    var r, g := rs[n], rs[n].objectGuid;
    if !IsInsert(r) {
      if i :| 0 <= i < n && rs[i].objectGuid == g && FailsAt(db0, rs, i) {
        NoRemoveAfterFailed(db0, rs, i, n);
        MeaningNeeds(db0, rs, i, n);
      }
    } else if exists i :: 0 <= i < n && rs[i].objectGuid == g && !IsInsert(rs[i]) {
      var i :| 0 <= i < n && rs[i].objectGuid == g && !IsInsert(rs[i]);
      MeaningNeeds(db0, rs, i, n);
    } else if !(forall i :: 0 <= i < n ==> rs[i].objectGuid != g) && g !in db0 {
      var i := FirstOf(rs, n, g);
      AbsentBefore(db0, rs, i, g);
      MeaningNeeds(db0, rs, i, n);
    }
  }

  lemma NoRemoveAfterFailed(db0: Database, rs: seq<Record>, i: nat, n: nat)
    requires i < n <= |rs| && FailsAt(db0, rs, i) && forall k :: 0 <= k < n ==> MayFollow(db0, rs, k)
    ensures forall j :: i < j < n && rs[j].objectGuid == rs[i].objectGuid ==> rs[j].optype != Remove
  {
    forall j | i < j < n && rs[j].objectGuid == rs[i].objectGuid ensures rs[j].optype != Remove {
      assert MayFollow(db0, rs, j);
    }
  }

  lemma {:induction false} FirstOf(rs: seq<Record>, n: nat, g: Guid) returns (i: nat)
    requires n <= |rs| && exists j :: 0 <= j < n && rs[j].objectGuid == g
    ensures i < n && rs[i].objectGuid == g && forall j :: 0 <= j < i ==> rs[j].objectGuid != g
  {
    if exists j :: 0 <= j < n - 1 && rs[j].objectGuid == g {
      i := FirstOf(rs, n - 1, g);
    } else {
      i := n - 1;
    }
  }

  lemma {:induction false} AbsentBefore(db0: Database, rs: seq<Record>, n: nat, g: Guid)
    requires n <= |rs| && g !in db0 && forall j :: 0 <= j < n ==> rs[j].objectGuid != g
    ensures RowAt(db0, rs, n, g) == None
  {
    if n > 0 {
      AbsentBefore(db0, rs, n - 1, g);
      RowStep(db0, rs, n - 1, g);
    } else {
      assert rs[..0] == [];
    }
  }

  // Whatever the batch boundaries, merging keeps the meaning of every prefix of the first n records if and
  // only if each of them may follow those before it.
  lemma {:induction false} MeaningKeptExact(db0: Database, rs: seq<Record>, n: nat)
    requires n <= |rs| && AllLogged(rs)
    ensures (forall k :: 0 <= k <= n ==> KeepsMeaningAt(db0, rs, k))
            <==> forall k :: 0 <= k < n ==> MayFollow(db0, rs, k)
  {
    if forall k :: 0 <= k < n ==> MayFollow(db0, rs, k) {
      forall k, cuts: seq<bool> | 0 <= k <= n && |cuts| == k ensures Means(db0, rs[..k], cuts) {
        var all := cuts + seq(|rs| - k, _ => false);
        assert all[..k] == cuts;
        RunIsSound(db0, rs, all, k);
      }
    }
    if (forall k :: 0 <= k <= n ==> KeepsMeaningAt(db0, rs, k)) && n > 0 {
      MeaningKeptExact(db0, rs, n - 1);
      NeededToFollow(db0, rs, n - 1);
    }
  }

  // ---------- Statements that are built and not executed ----------

  // CacheAssistantx::insert and update build their statement and report success without executing it
  // (dynamicparse/src/dynamicparseimp.cpp:716-1006); remove executes its own.
  function WriteAsBuilt(db: Database, r: Record): Database {
    if r.optype == Remove then db - {r.objectGuid} else db
  }

  function ApplyAsBuilt(db: Database, rs: seq<Record>): Database {
    if rs == [] then db else WriteAsBuilt(ApplyAsBuilt(db, rs[..|rs| - 1]), rs[|rs| - 1])
  }

  ghost predicate Removes(rs: seq<Record>, g: Guid) {
    exists i :: 0 <= i < |rs| && rs[i].objectGuid == g && rs[i].optype == Remove
  }

  // With these bodies nothing is ever stored: a row stays as it was until its guid is removed.
  lemma {:induction false} OnlyRemovals(db: Database, rs: seq<Record>, g: Guid)
    ensures Cell(ApplyAsBuilt(db, rs), g) == if Removes(rs, g) then None else Cell(db, g)
  {
    if rs != [] {
      var some, r := rs[..|rs| - 1], rs[|rs| - 1];
      OnlyRemovals(db, some, g);
      assert rs == some + [r];
      if Removes(some, g) {
        var i :| 0 <= i < |some| && some[i].objectGuid == g && some[i].optype == Remove;
        assert rs[i].optype == Remove;
      }
      if Removes(rs, g) && !Removes(some, g) {
        var i :| 0 <= i < |rs| && rs[i].objectGuid == g && rs[i].optype == Remove;
        assert i == |rs| - 1;
      }
    }
  }

  predicate BuiltIsEnough(db: Database, rs: seq<Record>, k: nat)
    requires k <= |rs|
  {
    ApplyAsBuilt(db, rs[..k]) == ApplyAll(db, rs[..k])
  }

  // Record k removes its row or would not change it.
  predicate ChangesNothing(db: Database, rs: seq<Record>, k: nat)
    requires k < |rs|
  {
    rs[k].optype == Remove || RowAt(db, rs, k + 1, rs[k].objectGuid) == RowAt(db, rs, k, rs[k].objectGuid)
  }

  // So the database is what executing every statement would give, at every prefix of the first n records, if
  // and only if no insert or update among them would change a row.
  lemma {:induction false} ExecutionExact(db: Database, rs: seq<Record>, n: nat)
    requires n <= |rs|
    ensures (forall k :: 0 <= k <= n ==> BuiltIsEnough(db, rs, k))
            <==> forall k :: 0 <= k < n ==> ChangesNothing(db, rs, k)
  {
    if n == 0 {
      assert rs[..0] == [];
    } else {
      ExecutionExact(db, rs, n - 1);
      if BuiltIsEnough(db, rs, n - 1) {
        ExecutionStep(db, rs, n - 1);
      }
    }
  }

  lemma ExecutionStep(db: Database, rs: seq<Record>, n: nat)
    requires n < |rs| && BuiltIsEnough(db, rs, n)
    ensures BuiltIsEnough(db, rs, n + 1) <==> ChangesNothing(db, rs, n)
  {
    var a, b, g := ApplyAsBuilt(db, rs[..n + 1]), ApplyAll(db, rs[..n + 1]), rs[n].objectGuid;
    assert rs[..n + 1][..n] == rs[..n];
    RowStep(db, rs, n, g);
    if ChangesNothing(db, rs, n) {
      forall h ensures Cell(a, h) == Cell(b, h) {
        RowStep(db, rs, n, h);
      }
      SameCells(a, b);
    }
  }
}
