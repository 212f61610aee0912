/**
 Creating, deleting and converting assets over two stores that can each fail. An operation is a
 program counter; every call on a store is one step of it, so a crash can fall between any two calls.
 */
module AssetSaga {
  import opened Basics
  import opened Text
  import opened AssetKeys

  type Body = string

  /**
   What a call does: it succeeds; it fails without effect; or it takes effect and still reports
   failure, as a repository write does when its transaction commits and the reload after it fails.
   */
  datatype Outcome = Done | Refused | Lost

  /** The binary fields of one asset row. */
  datatype Row = Row(key: string, originalName: string, mimeType: string, size: int)

  datatype Store = Store(objects: map<string, Body>, rows: map<string, Row>)

  datatype Verdict = Created | Deleted | Converted | Skipped | Failed

  datatype Pc =
    | CreateUpload(id: string, row: Row, body: Body)
    | CreateCommit(id: string, row: Row)
    | CreateUndo(id: string, row: Row, lost: bool)
    | DeleteLoad(id: string)
    | DeleteCommit(id: string)
    | ConvertLoad(id: string)
    | ConvertFetch(id: string, was: Row)
    | ConvertUpload(id: string, was: Row, next: Row, body: Body)
    | ConvertCommit(id: string, was: Row, next: Row)
    | ConvertUndo(id: string, was: Row, next: Row, lost: bool)
    | ConvertDrop(id: string, was: Row, next: Row)
    | ConvertRestore(id: string, was: Row, next: Row, lost: bool)
    | ConvertClean(id: string, was: Row, next: Row)
    | Publishing(id: string, verdict: Verdict)
    | Finished(id: string, verdict: Verdict)

  const JPG_TYPE := "image/jpeg"

  /**
   What the operations compute without a store: `encode` decodes an image and re-encodes it, `jpgKey`
   and `jpgName` rename, `isJPG` recognises a converted row, `acceptable` is the check of `UpdateBinary`.
   `RealEnv` is the service's own choice.
   */
  datatype Env = Env(
    encode: Body -> Option<Body>,
    jpgKey: string -> Option<string>,
    jpgName: (string, string) -> string,
    isJPG: Row -> bool,
    acceptable: Row -> bool)
  {
    /** The row a conversion wants to store. */
    function JPGRow(id: string, was: Row, key: string, payload: Body): Row {
      Row(key, jpgName(id, was.originalName), JPG_TYPE, |payload|)
    }
  }

  predicate IsJPG(row: Row) {
    && EqualFold(TrimSpace(row.mimeType), JPG_TYPE)
    && EqualFold(Ext(TrimSpace(row.key)), ".jpg")
    && EqualFold(Ext(TrimSpace(row.originalName)), ".jpg")
  }

  predicate Acceptable(row: Row) {
    row.size > 0 && !IsBlank(row.key) && !IsBlank(row.originalName) && !IsBlank(row.mimeType)
  }

  function JPGKey(key: string): Option<string> {
    if IsBlank(ReplaceWithJPGExtension(key)) then None else Some(ReplaceWithJPGExtension(key))
  }

  function JPGName(id: string, name: string): string {
    if IsBlank(ReplaceWithJPGExtension(name)) then TrimSpace(id) + ".jpg" else ReplaceWithJPGExtension(name)
  }

  function RealEnv(encode: Body -> Option<Body>): Env {
    Env(encode, JPGKey, JPGName, IsJPG, Acceptable)
  }

  /** Renaming stays inside the asset's own part of the store. */
  ghost predicate KeepsOwners(env: Env) {
    forall key, id :: ValidId(id) && OwnedBy(key, id) && env.jpgKey(key).Some? ==>
      OwnedBy(env.jpgKey(key).value, id)
  }

  lemma RealEnvKeepsOwners(encode: Body -> Option<Body>)
    ensures KeepsOwners(RealEnv(encode))
  {
    forall key, id | ValidId(id) && OwnedBy(key, id) && JPGKey(key).Some?
      ensures OwnedBy(JPGKey(key).value, id)
    {
      ReplaceKeepsOwner(key, id);
    }
  }

  function Put(s: Store, o: Outcome, key: string, body: Body): Store {
    if o.Refused? then s else s.(objects := s.objects[key := body])
  }

  function Erase(s: Store, o: Outcome, key: string): Store {
    if o.Refused? then s else s.(objects := s.objects - {key})
  }

  function SetRow(s: Store, o: Outcome, id: string, row: Row): Store {
    if o.Refused? then s else s.(rows := s.rows[id := row])
  }

  /** How an update of an existing row ends: it is refused for a missing row and for unacceptable values. */
  function UpdateOutcome(env: Env, s: Store, id: string, row: Row, o: Outcome): Outcome {
    if id in s.rows && env.acceptable(row) then o else Refused
  }

  /** One call of one operation. */
  function Advance(env: Env, s: Store, pc: Pc, o: Outcome): (Store, Pc) {
    match pc
    case CreateUpload(id, row, body) =>
      (Put(s, o, row.key, body), if o.Done? then CreateCommit(id, row) else Finished(id, Failed))
    case CreateCommit(id, row) =>
      (SetRow(s, o, id, row), if o.Done? then Publishing(id, Created) else CreateUndo(id, row, o.Lost?))
    case CreateUndo(id, row, _) =>
      (Erase(s, o, row.key), Finished(id, Failed))
    case DeleteLoad(id) =>
      (s, if o.Done? && id in s.rows then DeleteCommit(id) else Finished(id, Failed))
    case DeleteCommit(id) =>
      (if o.Refused? then s else s.(rows := s.rows - {id}),
       if o.Done? then Publishing(id, Deleted) else Finished(id, Failed))
    case ConvertLoad(id) =>
      (s, if !(o.Done? && id in s.rows) then Finished(id, Failed)
          else if env.isJPG(s.rows[id]) then Finished(id, Skipped)
          else ConvertFetch(id, s.rows[id]))
    case ConvertFetch(id, was) =>
      (s, if !(o.Done? && was.key in s.objects) then Finished(id, Failed)
          else match env.encode(s.objects[was.key])
            case None => Finished(id, Failed)
            case Some(payload) =>
              match env.jpgKey(was.key)
              case None => Finished(id, Failed)
              case Some(key) => ConvertUpload(id, was, env.JPGRow(id, was, key, payload), payload))
    case ConvertUpload(id, was, next, body) =>
      (Put(s, o, next.key, body), if o.Done? then ConvertCommit(id, was, next) else Finished(id, Failed))
    case ConvertCommit(id, was, next) =>
      var u := UpdateOutcome(env, s, id, next, o);
      (SetRow(s, u, id, next),
       if u.Done? then
         if next.key != was.key then ConvertDrop(id, was, next) else Publishing(id, Converted)
       else
         if next.key != was.key then ConvertUndo(id, was, next, u.Lost?) else Finished(id, Failed))
    case ConvertUndo(id, was, next, _) =>
      (Erase(s, o, next.key), Finished(id, Failed))
    case ConvertDrop(id, was, next) =>
      (Erase(s, o, was.key), if o.Done? then Publishing(id, Converted) else ConvertRestore(id, was, next, o.Lost?))
    case ConvertRestore(id, was, next, _) =>
      var u := UpdateOutcome(env, s, id, was, o);
      (SetRow(s, u, id, was), if u.Done? then ConvertClean(id, was, next) else Finished(id, Failed))
    case ConvertClean(id, was, next) =>
      (Erase(s, o, next.key), Finished(id, Failed))
    case Publishing(id, verdict) =>
      (s, Finished(id, if o.Done? then verdict else Failed))
    case Finished(_, _) => (s, pc)
  }

  // ----- the system: any number of operations at once -----

  /** `issued` holds every identifier that was ever generated. */
  datatype Sys = Sys(store: Store, issued: set<string>, ops: map<nat, Pc>)

  datatype Step =
    | BeginCreate(op: nat, id: string, row: Row, body: Body)
    | BeginDelete(op: nat, id: string)
    | BeginConvert(op: nat, id: string)
    | Go(op: nat, outcome: Outcome)
    | Abandon(op: nat)
    | Crash

  /** Deleting and converting hold the lock of their asset. */
  predicate Locks(pc: Pc) {
    !(pc.CreateUpload? || pc.CreateCommit? || pc.CreateUndo? || pc.Finished?)
    && !(pc.Publishing? && pc.verdict.Created?)
  }

  predicate LockFree(s: Sys, id: string) {
    forall op :: op in s.ops && Locks(s.ops[op]) ==> s.ops[op].id != id
  }

  /** The row that `Create` stores for a file name. */
  predicate FreshRow(id: string, row: Row) {
    && row.key == TrimSpace(BuildStorageKey(id, row.originalName))
    && Acceptable(row)
  }

  predicate Enabled(s: Sys, a: Step) {
    match a
    case BeginCreate(op, id, row, body) =>
      op !in s.ops && ValidId(id) && id !in s.issued && FreshRow(id, row) && body != ""
    case BeginDelete(op, id) => op !in s.ops && LockFree(s, id)
    case BeginConvert(op, id) => op !in s.ops && LockFree(s, id)
    case Go(op, _) => op in s.ops && !s.ops[op].Finished?
    case Abandon(op) => op in s.ops
    case Crash => true
  }

  function Apply(env: Env, s: Sys, a: Step): Sys
    requires Enabled(s, a)
  {
    match a
    case BeginCreate(op, id, row, body) =>
      s.(issued := s.issued + {id}, ops := s.ops[op := CreateUpload(id, row, body)])
    case BeginDelete(op, id) => s.(ops := s.ops[op := DeleteLoad(id)])
    case BeginConvert(op, id) => s.(ops := s.ops[op := ConvertLoad(id)])
    case Go(op, outcome) =>
      var (store, pc) := Advance(env, s.store, s.ops[op], outcome);
      s.(store := store, ops := if pc.Finished? then s.ops - {op} else s.ops[op := pc])
    case Abandon(op) => s.(ops := s.ops - {op})
    case Crash => s.(ops := map[])
  }

  ghost predicate RowsOwned(s: Store) {
    forall id :: id in s.rows ==> ValidId(id) && OwnedBy(s.rows[id].key, id)
  }

  /** Every key an operation can touch belongs to its own asset. */
  ghost predicate KeysOwned(pc: Pc) {
    match pc
    case CreateUpload(id, row, _) => ValidId(id) && OwnedBy(row.key, id)
    case CreateCommit(id, row) => ValidId(id) && OwnedBy(row.key, id)
    case CreateUndo(id, row, _) => ValidId(id) && OwnedBy(row.key, id)
    case ConvertFetch(id, was) => ValidId(id) && OwnedBy(was.key, id)
    case ConvertUpload(id, was, next, _) => ValidId(id) && OwnedBy(was.key, id) && OwnedBy(next.key, id)
    case ConvertCommit(id, was, next) => ValidId(id) && OwnedBy(was.key, id) && OwnedBy(next.key, id)
    case ConvertUndo(id, was, next, _) => ValidId(id) && OwnedBy(was.key, id) && OwnedBy(next.key, id)
    case ConvertDrop(id, was, next) => ValidId(id) && OwnedBy(was.key, id) && OwnedBy(next.key, id)
    case ConvertRestore(id, was, next, _) => ValidId(id) && OwnedBy(was.key, id) && OwnedBy(next.key, id)
    case ConvertClean(id, was, next) => ValidId(id) && OwnedBy(was.key, id) && OwnedBy(next.key, id)
    case _ => true
  }

  ghost predicate RowIs(s: Store, id: string, row: Row) {
    id in s.rows && s.rows[id] == row
  }

  /** What an operation knows about the stores between two of its calls. */
  ghost predicate Knows(s: Store, pc: Pc) {
    match pc
    case CreateUpload(id, row, _) => id !in s.rows
    case CreateCommit(id, row) => id !in s.rows && row.key in s.objects
    case CreateUndo(id, row, lost) => id !in s.rows && !lost
    case DeleteCommit(id) => id in s.rows
    case ConvertFetch(id, was) => RowIs(s, id, was)
    case ConvertUpload(id, was, next, _) => RowIs(s, id, was)
    case ConvertCommit(id, was, next) => RowIs(s, id, was) && next.key in s.objects
    case ConvertUndo(id, was, next, lost) => RowIs(s, id, was) && next.key != was.key && !lost
    case ConvertDrop(id, was, next) => RowIs(s, id, next) && next.key != was.key && was.key in s.objects
    case ConvertRestore(id, was, next, lost) =>
      RowIs(s, id, next) && next.key != was.key && was.key in s.objects && !lost
    case ConvertClean(id, was, next) => RowIs(s, id, was) && next.key != was.key
    case _ => true
  }

  predicate Creates(pc: Pc) {
    pc.CreateUpload? || pc.CreateCommit? || pc.CreateUndo?
  }

  /** At most one operation holds the lock of an asset, and at most one creates it. */
  ghost predicate Separate(ops: map<nat, Pc>) {
    forall a, b :: a in ops && b in ops && a != b && ops[a].id == ops[b].id ==>
      && !(Locks(ops[a]) && Locks(ops[b]))
      && !(Creates(ops[a]) && Creates(ops[b]))
  }

  lemma SeparateStep(ops: map<nat, Pc>, op: nat, next: Pc)
    requires Separate(ops) && op in ops && next.id == ops[op].id
    requires (Locks(next) ==> Locks(ops[op])) && (Creates(next) ==> Creates(ops[op]))
    ensures Separate(ops[op := next]) && Separate(ops - {op})
  {
    var later := ops[op := next];
    forall a, b | a in later && b in later && a != b && later[a].id == later[b].id
      ensures !(Locks(later[a]) && Locks(later[b])) && !(Creates(later[a]) && Creates(later[b]))
    {
      assert ops[a].id == ops[b].id;
    }
  }

  /** What holds whatever the writes report: every key stays with its asset, and operations keep apart. */
  ghost predicate Owned(s: Sys) {
    && RowsOwned(s.store)
    && (forall id :: id in s.store.rows ==> id in s.issued)
    && (forall op :: op in s.ops ==> KeysOwned(s.ops[op]))
    && (forall op :: op in s.ops && Creates(s.ops[op]) ==> s.ops[op].id in s.issued)
    && Separate(s.ops)
  }

  ghost predicate HasItsObject(s: Store, id: string) {
    id in s.rows ==> s.rows[id].key in s.objects
  }

  /** The asset has its object, and the operations on it know where they are. */
  ghost predicate Intact(s: Sys, id: string) {
    && HasItsObject(s.store, id)
    && (forall op :: op in s.ops && s.ops[op].id == id ==> Knows(s.store, s.ops[op]))
  }

  ghost predicate Inv(s: Sys, id: string) {
    Owned(s) && Intact(s, id)
  }

  /** The two stores agree on everything that belongs to the asset. */
  ghost predicate SameFor(s: Store, s': Store, id: string) {
    && (id in s.rows <==> id in s'.rows)
    && (id in s.rows ==> s.rows[id] == s'.rows[id])
    && (forall k :: OwnedBy(k, id) ==> (k in s.objects <==> k in s'.objects))
    && (forall k :: OwnedBy(k, id) && k in s.objects ==> k in s'.objects && s.objects[k] == s'.objects[k])
  }

  /** No call of any operation, whatever its outcome, touches another asset's row or objects. */
  lemma OthersUntouched(env: Env, s: Store, pc: Pc, o: Outcome, id: string)
    requires KeysOwned(pc) && ValidId(id) && id != pc.id
    ensures SameFor(s, Advance(env, s, pc, o).0, id)
  {
    forall k | OwnedBy(k, id) && ValidId(pc.id)
      ensures !OwnedBy(k, pc.id)
    {
      if OwnedBy(k, pc.id) { OneOwner(k, id, pc.id); }
    }
  }

  // ----- every step keeps the invariant -----

  /** The three writes whose outcome the code must be able to trust. */
  predicate Trusted(pc: Pc, o: Outcome) {
    o.Lost? ==> !(pc.CreateCommit? || pc.ConvertCommit? || pc.ConvertDrop?)
  }

  lemma KnowsSame(s: Store, s': Store, pc: Pc)
    requires KeysOwned(pc) && Knows(s, pc) && SameFor(s, s', pc.id)
    ensures Knows(s', pc)
  {
  }

  lemma OwnKeys(env: Env, s: Store, pc: Pc, o: Outcome)
    requires KeysOwned(pc) && RowsOwned(s) && KeepsOwners(env)
    ensures KeysOwned(Advance(env, s, pc, o).1) && Advance(env, s, pc, o).1.id == pc.id
  {
  }

  lemma CreateKnows(env: Env, s: Store, pc: Pc, o: Outcome)
    requires Creates(pc) && Knows(s, pc) && Trusted(pc, o)
    ensures Knows(Advance(env, s, pc, o).0, Advance(env, s, pc, o).1)
    ensures HasItsObject(Advance(env, s, pc, o).0, pc.id)
  {
  }

  predicate Deletes(pc: Pc) {
    pc.DeleteLoad? || pc.DeleteCommit?
  }

  lemma DeleteKnows(env: Env, s: Store, pc: Pc, o: Outcome)
    requires Deletes(pc) && Knows(s, pc) && HasItsObject(s, pc.id)
    ensures Knows(Advance(env, s, pc, o).0, Advance(env, s, pc, o).1)
    ensures HasItsObject(Advance(env, s, pc, o).0, pc.id)
  {
  }

  predicate Prepares(pc: Pc) {
    pc.ConvertLoad? || pc.ConvertFetch? || pc.ConvertUpload?
  }

  lemma PrepareKnows(env: Env, s: Store, pc: Pc, o: Outcome)
    requires Prepares(pc) && Knows(s, pc) && HasItsObject(s, pc.id)
    ensures Knows(Advance(env, s, pc, o).0, Advance(env, s, pc, o).1)
    ensures HasItsObject(Advance(env, s, pc, o).0, pc.id)
  {
  }

  lemma ReplaceKnows(env: Env, s: Store, pc: Pc, o: Outcome)
    requires !Creates(pc) && !Deletes(pc) && !Prepares(pc) && Knows(s, pc) && HasItsObject(s, pc.id) && Trusted(pc, o)
    ensures Knows(Advance(env, s, pc, o).0, Advance(env, s, pc, o).1)
    ensures HasItsObject(Advance(env, s, pc, o).0, pc.id)
  {
  }

  /** A call that reports truthfully leaves its asset with its object, and the operation knows what it needs next. */
  lemma OwnKnowledge(env: Env, s: Store, pc: Pc, o: Outcome)
    requires Knows(s, pc) && HasItsObject(s, pc.id) && Trusted(pc, o)
    ensures Knows(Advance(env, s, pc, o).0, Advance(env, s, pc, o).1)
    ensures HasItsObject(Advance(env, s, pc, o).0, pc.id)
  {
    if Creates(pc) {
      CreateKnows(env, s, pc, o);
    } else if Deletes(pc) {
      DeleteKnows(env, s, pc, o);
    } else if Prepares(pc) {
      PrepareKnows(env, s, pc, o);
    } else {
      ReplaceKnows(env, s, pc, o);
    }
  }

  /** Rows stay under keys of their own asset, whatever a call reports. */
  lemma RowsStayOwned(env: Env, s: Store, pc: Pc, o: Outcome)
    requires KeysOwned(pc) && RowsOwned(s)
    ensures RowsOwned(Advance(env, s, pc, o).0)
  {
    var s' := Advance(env, s, pc, o).0;
    forall id | id in s'.rows ensures ValidId(id) && OwnedBy(s'.rows[id].key, id) {
      if id != pc.id { assert id in s.rows && s'.rows[id] == s.rows[id]; }
    }
  }

  lemma NextStage(env: Env, s: Store, pc: Pc, o: Outcome)
    ensures var (s', next) := Advance(env, s, pc, o);
            && (Locks(next) ==> Locks(pc)) && (Creates(next) ==> Creates(pc))
            && (forall id :: id in s'.rows ==> id in s.rows || (id == pc.id && Creates(pc)))
  {
  }

  lemma GoStaysOwned(env: Env, s: Sys, op: nat, o: Outcome)
    requires KeepsOwners(env) && Owned(s) && Enabled(s, Go(op, o))
    ensures Owned(Apply(env, s, Go(op, o)))
  {
    var pc := s.ops[op];
    var (store, next) := Advance(env, s.store, pc, o);
    OwnKeys(env, s.store, pc, o);
    RowsStayOwned(env, s.store, pc, o);
    NextStage(env, s.store, pc, o);
    SeparateStep(s.ops, op, next);
  }

  /** Another operation on the same asset cannot know anything yet, or writes nothing. */
  lemma RivalKnows(env: Env, s: Sys, op: nat, o: Outcome, other: nat)
    requires Owned(s) && op in s.ops && other in s.ops && other != op && s.ops[other].id == s.ops[op].id
    requires Knows(s.store, s.ops[op]) && Knows(s.store, s.ops[other])
    requires forall id :: id in s.store.rows ==> id in s.issued
    ensures Knows(Advance(env, s.store, s.ops[op], o).0, s.ops[other])
  {
  }

  lemma OwnGo(env: Env, s: Sys, op: nat, o: Outcome)
    requires KeepsOwners(env) && Enabled(s, Go(op, o)) && Trusted(s.ops[op], o) && Inv(s, s.ops[op].id)
    ensures Intact(Apply(env, s, Go(op, o)), s.ops[op].id)
  {
    var pc := s.ops[op];
    var s' := Apply(env, s, Go(op, o));
    OwnKnowledge(env, s.store, pc, o);
    OwnKeys(env, s.store, pc, o);
    forall other | other in s'.ops && s'.ops[other].id == pc.id ensures Knows(s'.store, s'.ops[other]) {
      if other != op { RivalKnows(env, s, op, o, other); }
    }
  }

  /** A call of an operation on another asset may report what it likes. */
  lemma OtherGo(env: Env, s: Sys, op: nat, o: Outcome, id: string)
    requires KeepsOwners(env) && Enabled(s, Go(op, o)) && s.ops[op].id != id && Inv(s, id)
    ensures Intact(Apply(env, s, Go(op, o)), id)
  {
    var pc := s.ops[op];
    var s' := Apply(env, s, Go(op, o));
    OwnKeys(env, s.store, pc, o);
    NextStage(env, s.store, pc, o);
    if ValidId(id) {
      OthersUntouched(env, s.store, pc, o, id);
    }
    forall other | other in s'.ops && s'.ops[other].id == id ensures Knows(s'.store, s'.ops[other]) {
      if ValidId(id) { KnowsSame(s.store, s'.store, s.ops[other]); }
    }
  }

  /** The writes on this asset whose outcome the code must be able to trust report what they did. */
  predicate Honest(s: Sys, a: Step, id: string) {
    a.Go? && a.op in s.ops && s.ops[a.op].id == id ==> Trusted(s.ops[a.op], a.outcome)
  }

  lemma CreateStep(s: Sys, op: nat, id: string, row: Row, body: Body, asset: string)
    requires Inv(s, asset) && op !in s.ops && id !in s.issued && ValidId(id) && OwnedBy(row.key, id)
    ensures Inv(s.(issued := s.issued + {id}, ops := s.ops[op := CreateUpload(id, row, body)]), asset)
  {
  }

  lemma BeginStep(s: Sys, op: nat, pc: Pc, asset: string)
    requires Inv(s, asset) && op !in s.ops && LockFree(s, pc.id) && (pc.DeleteLoad? || pc.ConvertLoad?)
    ensures Inv(s.(ops := s.ops[op := pc]), asset)
  {
  }

  lemma FreshRowIsOwned(id: string, row: Row)
    requires ValidId(id)
    ensures FreshRow(id, row) ==> OwnedBy(row.key, id)
  {
    BuiltKeyIsOwned(id, row.originalName);
  }

  /** Every step keeps the keys apart, and each asset intact on which the step, if any, is honest. */
  lemma InvStep(env: Env, s: Sys, a: Step, id: string)
    requires KeepsOwners(env) && Inv(s, id) && Enabled(s, a) && Honest(s, a, id)
    ensures Inv(Apply(env, s, a), id)
  {
    match a
    case BeginCreate(op, newId, row, body) =>
      FreshRowIsOwned(newId, row);
      CreateStep(s, op, newId, row, body, id);
    case BeginDelete(op, other) => BeginStep(s, op, DeleteLoad(other), id);
    case BeginConvert(op, other) => BeginStep(s, op, ConvertLoad(other), id);
    case Go(op, o) =>
      GoStaysOwned(env, s, op, o);
      if s.ops[op].id == id { OwnGo(env, s, op, o); } else { OtherGo(env, s, op, o, id); }
    case _ =>
  }

  const EMPTY: Sys := Sys(Store(map[], map[]), {}, map[])

  /** A run of any steps, honest on the one asset. */
  ghost predicate HonestRun(env: Env, s: Sys, steps: seq<Step>, id: string)
    decreases |steps|
  {
    steps == [] ||
    (Enabled(s, steps[0]) && Honest(s, steps[0], id) && HonestRun(env, Apply(env, s, steps[0]), steps[1..], id))
  }

  ghost predicate CanRun(env: Env, s: Sys, steps: seq<Step>)
    decreases |steps|
  {
    steps == [] || (Enabled(s, steps[0]) && CanRun(env, Apply(env, s, steps[0]), steps[1..]))
  }

  ghost function After(env: Env, s: Sys, steps: seq<Step>): Sys
    requires CanRun(env, s, steps)
    decreases |steps|
  {
    if steps == [] then s else After(env, Apply(env, s, steps[0]), steps[1..])
  }

  lemma {:induction false} InvAfter(env: Env, s: Sys, steps: seq<Step>, id: string)
    requires KeepsOwners(env) && Inv(s, id) && HonestRun(env, s, steps, id)
    ensures CanRun(env, s, steps) && Inv(After(env, s, steps), id)
    decreases |steps|
  {
    if steps == [] {
    } else {
      InvStep(env, s, steps[0], id);
      InvAfter(env, Apply(env, s, steps[0]), steps[1..], id);
    }
  }

  lemma {:induction false} OwnedAfter(env: Env, s: Sys, steps: seq<Step>)
    requires KeepsOwners(env) && Owned(s) && CanRun(env, s, steps)
    ensures Owned(After(env, s, steps))
    decreases |steps|
  {
    if steps == [] {
    } else {
      OwnedStep(env, s, steps[0]);
      OwnedAfter(env, Apply(env, s, steps[0]), steps[1..]);
    }
  }

  lemma CreateStaysOwned(s: Sys, op: nat, id: string, row: Row, body: Body)
    requires Owned(s) && op !in s.ops && id !in s.issued && ValidId(id) && OwnedBy(row.key, id)
    ensures Owned(s.(issued := s.issued + {id}, ops := s.ops[op := CreateUpload(id, row, body)]))
  {
  }

  lemma OwnedStep(env: Env, s: Sys, a: Step)
    requires KeepsOwners(env) && Owned(s) && Enabled(s, a)
    ensures Owned(Apply(env, s, a))
  {
    match a
    case BeginCreate(op, newId, row, body) =>
      FreshRowIsOwned(newId, row);
      CreateStaysOwned(s, op, newId, row, body);
    case Go(op, o) => GoStaysOwned(env, s, op, o);
    case _ =>
  }

  /**
   Over every run of any number of concurrent creations, deletions and conversions, with any calls failing or
   misreporting, any operation abandoned and crashes between any two calls: rows stay under keys that belong to their
   own asset alone.
   */
  lemma EveryRunKeepsKeysApart(encode: Body -> Option<Body>, steps: seq<Step>)
    requires CanRun(RealEnv(encode), EMPTY, steps)
    ensures var rows := After(RealEnv(encode), EMPTY, steps).store.rows;
      forall id, other :: id in rows ==>
        OwnedBy(rows[id].key, id) && (other in rows && other != id ==> !OwnedBy(rows[id].key, other))
  {
    var env := RealEnv(encode);
    RealEnvKeepsOwners(encode);
    OwnedAfter(env, EMPTY, steps);
    var rows := After(env, EMPTY, steps).store.rows;
    forall id, other | id in rows && other in rows && other != id ensures !OwnedBy(rows[id].key, other) {
      if OwnedBy(rows[id].key, other) { OneOwner(rows[id].key, id, other); }
    }
  }

  /**
   Over every such run, an asset that is live has its object, provided that the three committing writes on this very
   asset report what they did; what happens on other assets does not matter.
   */
  lemma EveryRunKeepsObjects(encode: Body -> Option<Body>, steps: seq<Step>, id: string)
    requires HonestRun(RealEnv(encode), EMPTY, steps, id)
    ensures CanRun(RealEnv(encode), EMPTY, steps)
    ensures var s := After(RealEnv(encode), EMPTY, steps).store;
            id in s.rows ==> s.rows[id].key in s.objects
  {
    RealEnvKeepsOwners(encode);
    InvAfter(RealEnv(encode), EMPTY, steps, id);
  }
}
