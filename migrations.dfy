/**
  The database migration runner: a registry of versions in order, migrating
  up to a target (applying, in increasing order, each version not yet in the
  applied log), rolling back down to a target (reverting, from the last
  version down, each applied version above it), and listing the applied
  versions. The database is a class holding the applied log; what Up and
  Down do to the data is not modelled, only that they were called.
*/
module Migrations {
  import opened Wrappers

  /** The registered versions, in the order they apply. */
  const Registry: seq<string> := ["000", "001"]

  /** The target used when none is given: the last registered version. */
  function DefaultTarget(): string
  {
    Registry[|Registry| - 1]
  }

  lemma RegistryShape()
    ensures Registry == ["000", "001"] && DefaultTarget() == "001"
    ensures forall i, j :: 0 <= i < j < |Registry| ==> Registry[i] != Registry[j]
  {
  }

  /** One call on the database, as recorded in its log. */
  datatype MigrationOp =
    | CheckOp(version: string)
    | UpOp(version: string)
    | AddLogOp(version: string)
    | DownOp(version: string)
    | RemoveLogOp(version: string)

  datatype MigrationError =
    | VersionNotFound(version: string)
    | CheckFailed(version: string, cause: string)
    | UpFailed(version: string, cause: string)
    | LogFailed(version: string, cause: string)
    | DownFailed(version: string, cause: string)
    | RemoveFailed(version: string, cause: string)

  /** The text of each error. */
  function Message(e: MigrationError): string
  {
    if e.VersionNotFound? then "version " + e.version + " not found"
    else Wording(e) + e.version + ": " + e.cause
  }

  /** The fixed words before the version in a failed call's text. */
  function Wording(e: MigrationError): string
    requires !e.VersionNotFound?
  {
    match e
    case CheckFailed(_, _) => "error checking migration status "
    case UpFailed(_, _) => "error applying migration "
    case LogFailed(_, _) => "error logging migration "
    case DownFailed(_, _) => "error rolling back migration "
    case RemoveFailed(_, _) => "error removing migration log "
  }

  /**
    A failed call's text ends with ": " and that call's own error, so the
    cause is passed on unchanged, as `%w` does.
  */
  lemma {:induction false} MessageEndsWithCause(e: MigrationError)
    requires !e.VersionNotFound?
    ensures var m := Message(e); |m| >= |e.cause| + 2 && m[|m| - |e.cause| - 2..] == ": " + e.cause
  {
    hide Wording;
    EndsWithCause(Wording(e) + e.version, e.cause);
  }

  lemma EndsWithCause(w: string, c: string)
    ensures var m := w + ": " + c; |m| >= |c| + 2 && m[|m| - |c| - 2..] == ": " + c
  {
    assert w + ": " + c == w + (": " + c);
  }

  /** The position of the first occurrence of `v`. */
  function FirstIndex(vs: seq<string>, v: string): (i: nat)
    requires v in vs
    ensures i < |vs| && vs[i] == v
    ensures forall j :: 0 <= j < i ==> vs[j] != v
  {
    if vs[0] == v then 0 else 1 + FirstIndex(vs[1..], v)
  }

  // ---------------------------------------------------------------------------
  // The specification of a run
  // ---------------------------------------------------------------------------

  datatype Direction = Forward | Backward

  /** The applied log, the calls made and the error, if any, after some steps. */
  datatype Outcome = Outcome(applied: set<string>, ops: seq<MigrationOp>, err: Option<MigrationError>)

  function Elements(vs: seq<string>): set<string>
  {
    set v | v in vs
  }

  /**
    One version. Forward: a version not yet applied gets Up and then a log
    entry. Backward: a version applied gets Down and then loses its log entry.
    The first failing call ends the step with its error.
  */
  function Step(fault: MigrationOp -> Option<string>, applied: set<string>, v: string, dir: Direction): Outcome
  {
    if fault(CheckOp(v)).Some? then Outcome(applied, [CheckOp(v)], Some(CheckFailed(v, fault(CheckOp(v)).value)))
    else if dir.Forward? then
      if v in applied then Outcome(applied, [CheckOp(v)], None)
      else if fault(UpOp(v)).Some? then Outcome(applied, [CheckOp(v), UpOp(v)], Some(UpFailed(v, fault(UpOp(v)).value)))
      else if fault(AddLogOp(v)).Some? then
        Outcome(applied, [CheckOp(v), UpOp(v), AddLogOp(v)], Some(LogFailed(v, fault(AddLogOp(v)).value)))
      else Outcome(applied + {v}, [CheckOp(v), UpOp(v), AddLogOp(v)], None)
    else
      if v !in applied then Outcome(applied, [CheckOp(v)], None)
      else if fault(DownOp(v)).Some? then
        Outcome(applied, [CheckOp(v), DownOp(v)], Some(DownFailed(v, fault(DownOp(v)).value)))
      else if fault(RemoveLogOp(v)).Some? then
        Outcome(applied, [CheckOp(v), DownOp(v), RemoveLogOp(v)], Some(RemoveFailed(v, fault(RemoveLogOp(v)).value)))
      else Outcome(applied - {v}, [CheckOp(v), DownOp(v), RemoveLogOp(v)], None)
  }

  /** The versions `vs` in order, stopping at the first error. */
  function Run(fault: MigrationOp -> Option<string>, applied: set<string>, vs: seq<string>, dir: Direction): Outcome
    decreases |vs|
  {
    if |vs| == 0 then Outcome(applied, [], None)
    else
      var s := Step(fault, applied, vs[0], dir);
      if s.err.Some? then s
      else
        var rest := Run(fault, s.applied, vs[1..], dir);
        Outcome(rest.applied, s.ops + rest.ops, rest.err)
  }

  /** The versions from the last one down to the first: the order in which the backward run visits them. */
  function Reversed(vs: seq<string>): (r: seq<string>)
    ensures |r| == |vs| && forall i :: 0 <= i < |vs| ==> r[i] == vs[|vs| - 1 - i]
  {
    if |vs| == 0 then [] else [vs[|vs| - 1]] + Reversed(vs[..|vs| - 1])
  }

  /** An outcome preceded by calls made before it. */
  function Prepend(done: seq<MigrationOp>, o: Outcome): Outcome
  {
    Outcome(o.applied, done + o.ops, o.err)
  }

  /** One more step of a run: a failed step is where the run ends, otherwise the run goes on from its state. */
  lemma {:induction false} RunAdvance(fault: MigrationOp -> Option<string>, a0: set<string>, vs: seq<string>, dir: Direction,
                   ws: seq<string>, done: seq<MigrationOp>, cur: set<string>)
    requires |ws| > 0
    requires Run(fault, a0, vs, dir) == Prepend(done, Run(fault, cur, ws, dir))
    ensures var s := Step(fault, cur, ws[0], dir);
      if s.err.Some? then Run(fault, a0, vs, dir) == Prepend(done, s)
      else Run(fault, a0, vs, dir) == Prepend(done + s.ops, Run(fault, s.applied, ws[1..], dir))
  {
    var s := Step(fault, cur, ws[0], dir);
    if s.err.None? {
      var rest := Run(fault, s.applied, ws[1..], dir);
      assert done + (s.ops + rest.ops) == (done + s.ops) + rest.ops;
    }
  }

  // ---------------------------------------------------------------------------
  // Properties of a run
  // ---------------------------------------------------------------------------

  /** A run that ends without error has applied (or reverted) every version it visited. */
  lemma {:induction false} RunSuccess(fault: MigrationOp -> Option<string>, applied: set<string>, vs: seq<string>,
                                       dir: Direction)
    ensures var r := Run(fault, applied, vs, dir);
      r.err.None? ==> r.applied == if dir.Forward? then applied + Elements(vs) else applied - Elements(vs)
    decreases |vs|
  {
    if |vs| > 0 {
      var s := Step(fault, applied, vs[0], dir);
      RunSuccess(fault, s.applied, vs[1..], dir);
      assert Elements(vs) == {vs[0]} + Elements(vs[1..]) by {
        assert forall v :: v in vs <==> v == vs[0] || v in vs[1..] by {
          assert vs == [vs[0]] + vs[1..];
        }
      }
    }
  }

  /** A run only adds visited versions going forward and only removes them going backward. */
  lemma {:induction false} RunBounds(fault: MigrationOp -> Option<string>, applied: set<string>, vs: seq<string>,
                                      dir: Direction)
    ensures var r := Run(fault, applied, vs, dir);
      if dir.Forward? then applied <= r.applied <= applied + Elements(vs)
      else applied - Elements(vs) <= r.applied <= applied
    decreases |vs|
  {
    if |vs| > 0 {
      var s := Step(fault, applied, vs[0], dir);
      RunBounds(fault, s.applied, vs[1..], dir);
      assert forall v :: v in vs[1..] ==> v in vs;
    }
  }

  /** Every call of a step concerns its version. */
  lemma {:induction false} StepTouchesOnly(fault: MigrationOp -> Option<string>, applied: set<string>, v: string, dir: Direction)
    ensures forall op :: op in Step(fault, applied, v, dir).ops ==> op.version == v
  {
  }

  /** Every call of a run concerns a version it was given. */
  lemma {:induction false} RunTouchesOnly(fault: MigrationOp -> Option<string>, applied: set<string>, vs: seq<string>,
                                           dir: Direction)
    ensures forall op :: op in Run(fault, applied, vs, dir).ops ==> op.version in vs
    decreases |vs|
  {
    hide Step;
    if |vs| > 0 {
      var s := Step(fault, applied, vs[0], dir);
      StepTouchesOnly(fault, applied, vs[0], dir);
      RunTouchesOnly(fault, s.applied, vs[1..], dir);
      assert forall v :: v in vs[1..] ==> v in vs;
    }
  }

  /** Up is called only for versions not yet applied, and Down only for applied ones. */
  lemma {:induction false} RunCallsOnlyWhereNeeded(fault: MigrationOp -> Option<string>, applied: set<string>,
                                                    vs: seq<string>, dir: Direction)
    ensures forall op :: op in Run(fault, applied, vs, dir).ops ==>
      (op.UpOp? ==> dir.Forward? && op.version !in applied) && (op.DownOp? ==> dir.Backward? && op.version in applied)
    decreases |vs|
  {
    if |vs| > 0 {
      var s := Step(fault, applied, vs[0], dir);
      if s.err.None? {
        RunCallsOnlyWhereNeeded(fault, s.applied, vs[1..], dir);
        RunBounds(fault, s.applied, vs[1..], dir);
      }
    }
  }

  /** Once a run has failed, versions after the failing prefix are never attempted. */
  lemma {:induction false} RunStopsAtError(fault: MigrationOp -> Option<string>, applied: set<string>, vs: seq<string>,
                                            ws: seq<string>, dir: Direction)
    requires Run(fault, applied, vs, dir).err.Some?
    ensures Run(fault, applied, vs + ws, dir) == Run(fault, applied, vs, dir)
    decreases |vs|
  {
    assert (vs + ws)[0] == vs[0];
    var s := Step(fault, applied, vs[0], dir);
    if s.err.None? {
      assert (vs + ws)[1..] == vs[1..] + ws;
      RunStopsAtError(fault, s.applied, vs[1..], ws, dir);
    }
  }

  /** A failed Up ends the run with that version still not applied, its Up the last call. */
  lemma {:induction false} UpFailureIsNotLogged(fault: MigrationOp -> Option<string>, applied: set<string>, vs: seq<string>)
    requires Run(fault, applied, vs, Forward).err.Some? && Run(fault, applied, vs, Forward).err.value.UpFailed?
    ensures var r := Run(fault, applied, vs, Forward);
      r.err.value.version !in r.applied && r.ops[|r.ops| - 1] == UpOp(r.err.value.version)
    decreases |vs|
  {
    var s := Step(fault, applied, vs[0], Forward);
    if s.err.None? {
      UpFailureIsNotLogged(fault, s.applied, vs[1..]);
    }
  }

  /** A version a run was not given keeps its place in or out of the applied log. */
  lemma {:induction false} RunKeepsOthers(fault: MigrationOp -> Option<string>, applied: set<string>, vs: seq<string>, dir: Direction,
                       v: string)
    requires v !in vs
    ensures v in Run(fault, applied, vs, dir).applied <==> v in applied
  {
    RunBounds(fault, applied, vs, dir);
  }

  /** Running the same migration twice: after a successful run, the second one calls no Up. */
  lemma {:induction false} MigrateTwiceCallsNoUp(fault: MigrationOp -> Option<string>, applied: set<string>, vs: seq<string>)
    requires Run(fault, applied, vs, Forward).err.None?
    ensures forall op :: op in Run(fault, Run(fault, applied, vs, Forward).applied, vs, Forward).ops ==> !op.UpOp?
  {
    var first := Run(fault, applied, vs, Forward);
    RunSuccess(fault, applied, vs, Forward);
    RunCallsOnlyWhereNeeded(fault, first.applied, vs, Forward);
    RunTouchesOnly(fault, first.applied, vs, Forward);
  }

  /** The applied versions among `vs`, in the order of `vs`. */
  function AppliedInOrder(vs: seq<string>, applied: set<string>): (r: seq<string>)
    ensures forall v :: v in r <==> v in vs && v in applied
    ensures |r| <= |vs|
  {
    if |vs| == 0 then []
    else if vs[0] in applied then [vs[0]] + AppliedInOrder(vs[1..], applied)
    else AppliedInOrder(vs[1..], applied)
  }

  /** With the registry as it stands, the listing is "000" before "001", each when applied. */
  lemma {:induction false} AppliedRegistryOrder(applied: set<string>)
    ensures AppliedInOrder(Registry, applied)
         == (if "000" in applied then ["000"] else []) + (if "001" in applied then ["001"] else [])
  {
    assert Registry[1..] == ["001"] && Registry[1..][1..] == [];
  }

  // ---------------------------------------------------------------------------
  // The database and the commands
  // ---------------------------------------------------------------------------

  class MigrationDb {
    var applied: set<string>
    ghost var ops: seq<MigrationOp>
    const fault: MigrationOp -> Option<string>

    constructor(applied: set<string>, fault: MigrationOp -> Option<string>)
      ensures this.applied == applied && ops == [] && this.fault == fault
    {
      this.applied := applied;
      ops := [];
      this.fault := fault;
    }

    method HasMigration(v: string) returns (r: Result<bool, string>)
      modifies this`ops
      ensures ops == old(ops) + [CheckOp(v)]
      ensures r == if fault(CheckOp(v)).Some? then Err(fault(CheckOp(v)).value) else Ok(v in applied)
    {
      ops := ops + [CheckOp(v)];
      r := if fault(CheckOp(v)).Some? then Err(fault(CheckOp(v)).value) else Ok(v in applied);
    }

    method Up(v: string) returns (e: Option<string>)
      modifies this`ops
      ensures ops == old(ops) + [UpOp(v)] && e == fault(UpOp(v))
    {
      ops := ops + [UpOp(v)];
      e := fault(UpOp(v));
    }

    method Down(v: string) returns (e: Option<string>)
      modifies this`ops
      ensures ops == old(ops) + [DownOp(v)] && e == fault(DownOp(v))
    {
      ops := ops + [DownOp(v)];
      e := fault(DownOp(v));
    }

    method AddMigrationLog(v: string) returns (e: Option<string>)
      modifies this`applied, this`ops
      ensures ops == old(ops) + [AddLogOp(v)] && e == fault(AddLogOp(v))
      ensures applied == if e.Some? then old(applied) else old(applied) + {v}
    {
      ops := ops + [AddLogOp(v)];
      e := fault(AddLogOp(v));
      if e.None? {
        applied := applied + {v};
      }
    }

    method RemoveMigrationLog(v: string) returns (e: Option<string>)
      modifies this`applied, this`ops
      ensures ops == old(ops) + [RemoveLogOp(v)] && e == fault(RemoveLogOp(v))
      ensures applied == if e.Some? then old(applied) else old(applied) - {v}
    {
      ops := ops + [RemoveLogOp(v)];
      e := fault(RemoveLogOp(v));
      if e.None? {
        applied := applied - {v};
      }
    }

    /** One version of a run, as `Step` specifies it. */
    method RunStep(v: string, dir: Direction) returns (err: Option<MigrationError>)
      modifies this`applied, this`ops
      ensures var s := Step(fault, old(applied), v, dir);
        applied == s.applied && ops == old(ops) + s.ops && err == s.err
    {
      var has := HasMigration(v);
      if has.Err? {
        return Some(CheckFailed(v, has.error));
      }
      if dir.Forward? && !has.value {
        var e := Up(v);
        if e.Some? {
          return Some(UpFailed(v, e.value));
        }
        e := AddMigrationLog(v);
        if e.Some? {
          return Some(LogFailed(v, e.value));
        }
      } else if dir.Backward? && has.value {
        var e := Down(v);
        if e.Some? {
          return Some(DownFailed(v, e.value));
        }
        e := RemoveMigrationLog(v);
        if e.Some? {
          return Some(RemoveFailed(v, e.value));
        }
      }
      err := None;
    }
  }

  /** The first registry position holding `version`, or -1 and an error. */
  method FindMigrationIndex(version: string) returns (i: int, err: Option<MigrationError>)
    ensures err.None? <==> version in Registry
    ensures err.None? ==> i == FirstIndex(Registry, version)
    ensures err.Some? ==> i == -1 && err == Some(VersionNotFound(version))
  {
    for k := 0 to |Registry|
      invariant forall j :: 0 <= j < k ==> Registry[j] != version
    {
      if Registry[k] == version {
        return k, None;
      }
    }
    return -1, Some(VersionNotFound(version));
  }

  /** The log grew by `tail` and was otherwise left alone. */
  ghost predicate Extends(ops: seq<MigrationOp>, before: seq<MigrationOp>, tail: seq<MigrationOp>)
  {
    ops == before + tail
  }

  /** Applies, in order, every registered version up to the target that is not yet applied. */
  method RunMigrate(db: MigrationDb, target: string) returns (err: Option<MigrationError>)
    modifies db`applied, db`ops
    ensures target !in Registry ==>
      err == Some(VersionNotFound(target)) && db.applied == old(db.applied) && db.ops == old(db.ops)
    ensures target in Registry ==>
      var r := Run(db.fault, old(db.applied), Registry[..FirstIndex(Registry, target) + 1], Forward);
      db.applied == r.applied && Extends(db.ops, old(db.ops), r.ops) && err == r.err
  {
    // The loop relies on RunAdvance and RunStep's contract, not on what a step does.
    hide Step;
    var targetIndex, notFound := FindMigrationIndex(target);
    if notFound.Some? {
      return notFound;
    }
    ghost var vs := Registry[..targetIndex + 1];
    ghost var a0 := db.applied;
    ghost var ops0 := db.ops;
    ghost var done: seq<MigrationOp> := [];
    var i := 0;
    while i <= targetIndex
      invariant 0 <= i <= targetIndex + 1
      invariant db.ops == ops0 + done
      invariant Run(db.fault, a0, vs, Forward) == Prepend(done, Run(db.fault, db.applied, vs[i..], Forward))
    {
      assert vs[i..][0] == Registry[i] && vs[i..][1..] == vs[i + 1..];
      RunAdvance(db.fault, a0, vs, Forward, vs[i..], done, db.applied);
      ghost var s := Step(db.fault, db.applied, Registry[i], Forward);
      var e := db.RunStep(Registry[i], Forward);
      if e.Some? {
        assert db.ops == ops0 + (done + s.ops);
        return e;
      }
      done := done + s.ops;
      i := i + 1;
    }
    assert vs[i..] == [];
    err := None;
  }

  /** Reverts, from the last registered version down, every applied version above the target. */
  method RunUnmigrate(db: MigrationDb, target: string) returns (err: Option<MigrationError>)
    modifies db`applied, db`ops
    ensures target !in Registry ==>
      err == Some(VersionNotFound(target)) && db.applied == old(db.applied) && db.ops == old(db.ops)
    ensures target in Registry ==>
      var r := Run(db.fault, old(db.applied), Reversed(Registry[FirstIndex(Registry, target) + 1..]), Backward);
      db.applied == r.applied && Extends(db.ops, old(db.ops), r.ops) && err == r.err
  {
    // The loop relies on RunAdvance and RunStep's contract, not on what a step does.
    hide Step;
    var targetIndex, notFound := FindMigrationIndex(target);
    if notFound.Some? {
      return notFound;
    }
    ghost var vs := Reversed(Registry[targetIndex + 1..]);
    ghost var a0 := db.applied;
    ghost var ops0 := db.ops;
    ghost var done: seq<MigrationOp> := [];
    var i := |Registry| - 1;
    while i > targetIndex
      invariant targetIndex <= i <= |Registry| - 1
      invariant db.ops == ops0 + done
      invariant Run(db.fault, a0, vs, Backward)
             == Prepend(done, Run(db.fault, db.applied, Reversed(Registry[targetIndex + 1..i + 1]), Backward))
    {
      ghost var window := Registry[targetIndex + 1..i + 1];
      assert window[..|window| - 1] == Registry[targetIndex + 1..i];
      assert Reversed(window)[0] == Registry[i] && Reversed(window)[1..] == Reversed(Registry[targetIndex + 1..i]);
      RunAdvance(db.fault, a0, vs, Backward, Reversed(window), done, db.applied);
      ghost var s := Step(db.fault, db.applied, Registry[i], Backward);
      var e := db.RunStep(Registry[i], Backward);
      if e.Some? {
        assert db.ops == ops0 + (done + s.ops);
        return e;
      }
      done := done + s.ops;
      i := i - 1;
    }
    assert Registry[targetIndex + 1..i + 1] == [];
    err := None;
  }

  /** The applied versions in registry order; the first failing status check ends the listing. */
  method ShowMigrations(db: MigrationDb) returns (r: Result<seq<string>, MigrationError>)
    modifies db`ops
    ensures forall k :: (0 <= k < |Registry| && db.fault(CheckOp(Registry[k])).Some?
                         && forall j :: 0 <= j < k ==> db.fault(CheckOp(Registry[j])).None?) ==>
      r == Err(CheckFailed(Registry[k], db.fault(CheckOp(Registry[k])).value))
    ensures (forall k :: 0 <= k < |Registry| ==> db.fault(CheckOp(Registry[k])).None?) ==>
      r == Ok(AppliedInOrder(Registry, db.applied))
  {
    var listed: seq<string> := [];
    for i := 0 to |Registry|
      invariant forall j :: 0 <= j < i ==> db.fault(CheckOp(Registry[j])).None?
      invariant listed + AppliedInOrder(Registry[i..], db.applied) == AppliedInOrder(Registry, db.applied)
    {
      assert Registry[i..][0] == Registry[i] && Registry[i..][1..] == Registry[i + 1..];
      var has := db.HasMigration(Registry[i]);
      if has.Err? {
        return Err(CheckFailed(Registry[i], has.error));
      }
      if has.value {
        listed := listed + [Registry[i]];
      }
    }
    assert Registry[|Registry|..] == [];
    assert listed + [] == listed;
    r := Ok(listed);
  }

  /** After migrating to a target, the versions above it are as they were. */
  lemma {:induction false} MigrateLeavesHigherVersions(fault: MigrationOp -> Option<string>, applied: set<string>, target: string, j: int)
    requires target in Registry && FirstIndex(Registry, target) < j < |Registry|
    ensures var r := Run(fault, applied, Registry[..FirstIndex(Registry, target) + 1], Forward);
      (Registry[j] in r.applied <==> Registry[j] in applied) && forall op :: op in r.ops ==> op.version != Registry[j]
  {
    var vs := Registry[..FirstIndex(Registry, target) + 1];
    RegistryShape();
    assert Registry[j] !in vs;
    RunKeepsOthers(fault, applied, vs, Forward, Registry[j]);
    RunTouchesOnly(fault, applied, vs, Forward);
  }

  /** After rolling back to a target, the target and the versions below it are as they were. */
  lemma {:induction false} UnmigrateLeavesTargetAndBelow(fault: MigrationOp -> Option<string>, applied: set<string>, target: string, j: int)
    requires target in Registry && 0 <= j <= FirstIndex(Registry, target)
    ensures var r := Run(fault, applied, Reversed(Registry[FirstIndex(Registry, target) + 1..]), Backward);
      (Registry[j] in r.applied <==> Registry[j] in applied) && forall op :: op in r.ops ==> op.version != Registry[j]
  {
    var vs := Reversed(Registry[FirstIndex(Registry, target) + 1..]);
    RegistryShape();
    assert Registry[j] !in vs;
    RunKeepsOthers(fault, applied, vs, Backward, Registry[j]);
    RunTouchesOnly(fault, applied, vs, Backward);
  }
}
