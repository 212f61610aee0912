/** One operation of the asset service from its first call to its last, and the service that runs it in place. */
module AssetRuns {
  import opened Basics
  import opened Text
  import opened AssetKeys
  import opened AssetSaga

  datatype Call = Upload | Commit | Undo | Load | Remove | Download | DropOld | Restore | DropNew | Publish

  /** Decides the outcome of every call of one operation; no operation makes the same call twice. */
  type Script = Call -> Outcome

  function CallOf(pc: Pc): Call {
    match pc
    case CreateUpload(_, _, _) => Upload
    case CreateCommit(_, _) => Commit
    case CreateUndo(_, _, _) => Undo
    case DeleteLoad(_) => Load
    case DeleteCommit(_) => Remove
    case ConvertLoad(_) => Load
    case ConvertFetch(_, _) => Download
    case ConvertUpload(_, _, _, _) => Upload
    case ConvertCommit(_, _, _) => Commit
    case ConvertUndo(_, _, _, _) => Undo
    case ConvertDrop(_, _, _) => DropOld
    case ConvertRestore(_, _, _, _) => Restore
    case ConvertClean(_, _, _) => DropNew
    case _ => Publish
  }

  /** Calls an operation can still make. */
  function CallsLeft(pc: Pc): nat {
    match pc
    case Finished(_, _) => 0
    case Publishing(_, _) => 1
    case CreateUndo(_, _, _) => 1
    case ConvertUndo(_, _, _, _) => 1
    case ConvertClean(_, _, _) => 1
    case ConvertRestore(_, _, _, _) => 2
    case ConvertDrop(_, _, _) => 3
    case ConvertCommit(_, _, _) => 4
    case ConvertUpload(_, _, _, _) => 5
    case ConvertFetch(_, _) => 6
    case ConvertLoad(_) => 7
    case DeleteCommit(_) => 2
    case DeleteLoad(_) => 3
    case CreateCommit(_, _) => 2
    case CreateUpload(_, _, _) => 3
  }

  function RunToEnd(env: Env, s: Store, pc: Pc, script: Script): (Store, Verdict)
    decreases CallsLeft(pc)
  {
    if pc.Finished? then (s, pc.verdict)
    else
      var (s', next) := Advance(env, s, pc, script(CallOf(pc)));
      RunToEnd(env, s', next, script)
  }

  predicate Effective(o: Outcome) {
    !o.Refused?
  }

  /** A conversion gets as far as writing the new row, under a new key. */
  predicate ReachesCommit(env: Env, s: Store, id: string, script: Script) {
    && script(Load).Done? && id in s.rows && !env.isJPG(s.rows[id])
    && script(Download).Done? && s.rows[id].key in s.objects
    && var payload := env.encode(s.objects[s.rows[id].key]);
    var key := env.jpgKey(s.rows[id].key);
    && payload.Some? && key.Some?
    && script(Upload).Done?
    && env.acceptable(env.JPGRow(id, s.rows[id], key.value, payload.value))
    && key.value != s.rows[id].key
  }

  /** The two ways a conversion can leave its row without an object. */
  predicate ConversionLosesObject(env: Env, s: Store, id: string, script: Script) {
    && ReachesCommit(env, s, id, script)
    && ((script(Commit).Lost? && Effective(script(Undo)))
        || (script(Commit).Done? && script(DropOld).Lost? && Effective(script(Restore)) && env.acceptable(s.rows[id])))
  }

  /** The row points at an object. */
  predicate HasObject(s: Store, id: string) {
    id in s.rows && s.rows[id].key in s.objects
  }

  // What the last calls of an operation amount to.

  lemma PublishTail(env: Env, s: Store, id: string, v: Verdict, script: Script)
    ensures RunToEnd(env, s, Publishing(id, v), script) == (s, if script(Publish).Done? then v else Failed)
  {
    assert RunToEnd(env, s, Finished(id, if script(Publish).Done? then v else Failed), script).0 == s;
  }

  lemma UndoTail(env: Env, s: Store, id: string, was: Row, next: Row, lost: bool, script: Script)
    ensures RunToEnd(env, s, ConvertUndo(id, was, next, lost), script) == (Erase(s, script(Undo), next.key), Failed)
  {
    assert RunToEnd(env, Erase(s, script(Undo), next.key), Finished(id, Failed), script).1 == Failed;
  }

  lemma CleanTail(env: Env, s: Store, id: string, was: Row, next: Row, script: Script)
    ensures RunToEnd(env, s, ConvertClean(id, was, next), script) == (Erase(s, script(DropNew), next.key), Failed)
  {
    assert RunToEnd(env, Erase(s, script(DropNew), next.key), Finished(id, Failed), script).1 == Failed;
  }

  lemma RestoreTail(env: Env, s: Store, id: string, was: Row, next: Row, lost: bool, script: Script)
    requires id in s.rows
    ensures RunToEnd(env, s, ConvertRestore(id, was, next, lost), script) ==
      (if !env.acceptable(was) || script(Restore).Refused? then (s, Failed)
       else if script(Restore).Lost? then (s.(rows := s.rows[id := was]), Failed)
       else (Erase(s.(rows := s.rows[id := was]), script(DropNew), next.key), Failed))
  {
    var u := UpdateOutcome(env, s, id, was, script(Restore));
    if u.Done? {
      CleanTail(env, SetRow(s, u, id, was), id, was, next, script);
    } else {
      assert RunToEnd(env, SetRow(s, u, id, was), Finished(id, Failed), script).1 == Failed;
    }
  }

  lemma DropTail(env: Env, s: Store, id: string, was: Row, next: Row, script: Script)
    requires id in s.rows
    ensures RunToEnd(env, s, ConvertDrop(id, was, next), script) ==
      (if script(DropOld).Done? then
         (Erase(s, Done, was.key), if script(Publish).Done? then Converted else Failed)
       else
         RunToEnd(env, Erase(s, script(DropOld), was.key),
                  ConvertRestore(id, was, next, script(DropOld).Lost?), script))
  {
    if script(DropOld).Done? {
      PublishTail(env, Erase(s, Done, was.key), id, Converted, script);
    }
  }

  lemma CommitTail(env: Env, s: Store, id: string, was: Row, next: Row, script: Script)
    requires RowIs(s, id, was) && env.acceptable(next) && was.key != next.key
    ensures RunToEnd(env, s, ConvertCommit(id, was, next), script) ==
      (var s' := SetRow(s, script(Commit), id, next);
       if script(Commit).Done? then RunToEnd(env, s', ConvertDrop(id, was, next), script)
       else (Erase(s', script(Undo), next.key), Failed))
  {
    if !script(Commit).Done? {
      UndoTail(env, SetRow(s, script(Commit), id, next), id, was, next, script(Commit).Lost?, script);
    }
  }

  lemma CommitLosesObject(env: Env, s: Store, id: string, was: Row, next: Row, script: Script)
    requires RowIs(s, id, was) && was.key in s.objects && next.key in s.objects && was.key != next.key
    requires env.acceptable(next)
    ensures !HasObject(RunToEnd(env, s, ConvertCommit(id, was, next), script).0, id) <==>
        ((script(Commit).Lost? && Effective(script(Undo)))
         || (script(Commit).Done? && script(DropOld).Lost? && Effective(script(Restore)) && env.acceptable(was)))
  {
    CommitTail(env, s, id, was, next, script);
    if script(Commit).Done? {
      var s' := SetRow(s, Done, id, next);
      DropTail(env, s', id, was, next, script);
      if !script(DropOld).Done? {
        RestoreTail(env, Erase(s', script(DropOld), was.key), id, was, next, script(DropOld).Lost?, script);
      }
    }
  }

  lemma FetchTail(env: Env, s: Store, id: string, was: Row, script: Script)
    requires was.key in s.objects
    ensures var payload, key := env.encode(s.objects[was.key]), env.jpgKey(was.key);
      RunToEnd(env, s, ConvertFetch(id, was), script) ==
      (if !script(Download).Done? || payload.None? || key.None? then (s, Failed)
       else
         var next := env.JPGRow(id, was, key.value, payload.value);
         var s' := Put(s, script(Upload), next.key, payload.value);
         if !script(Upload).Done? then (s', Failed)
         else RunToEnd(env, s', ConvertCommit(id, was, next), script))
  {
    var (s1, pc1) := Advance(env, s, ConvertFetch(id, was), script(Download));
    if pc1.ConvertUpload? {
      var (s2, pc2) := Advance(env, s1, pc1, script(Upload));
      assert RunToEnd(env, s1, pc1, script) == RunToEnd(env, s2, pc2, script);
    }
  }

  /** How far a conversion gets before it writes the new row. */
  lemma LoadTail(env: Env, s: Store, id: string, script: Script)
    ensures RunToEnd(env, s, ConvertLoad(id), script) ==
      (if !script(Load).Done? || id !in s.rows then (s, Failed)
       else if env.isJPG(s.rows[id]) then (s, Skipped)
       else RunToEnd(env, s, ConvertFetch(id, s.rows[id]), script))
  {
    var (s1, pc1) := Advance(env, s, ConvertLoad(id), script(Load));
    if pc1.Finished? {
      assert RunToEnd(env, s1, pc1, script) == (s1, pc1.verdict);
    }
  }

  /** Exactly when a conversion leaves its asset without an object, for every choice of failing calls. */
  lemma ConversionLosesObjectExactly(env: Env, s: Store, id: string, script: Script)
    requires HasObject(s, id)
    ensures !HasObject(RunToEnd(env, s, ConvertLoad(id), script).0, id) <==>
            ConversionLosesObject(env, s, id, script)
  {
    var was := s.rows[id];
    LoadTail(env, s, id, script);
    FetchTail(env, s, id, was, script);
    var payload, key := env.encode(s.objects[was.key]), env.jpgKey(was.key);
    if payload.Some? && key.Some? && script(Upload).Done? {
      var next := env.JPGRow(id, was, key.value, payload.value);
      var s' := Put(s, Done, next.key, payload.value);
      if key.value == was.key || !env.acceptable(next) {
        StubbornCommit(env, s', id, was, next, script);
      } else {
        CommitLosesObject(env, s', id, was, next, script);
      }
    }
  }

  /** A refused or same-key commit keeps the row's object. */
  lemma StubbornCommit(env: Env, s: Store, id: string, was: Row, next: Row, script: Script)
    requires RowIs(s, id, was) && was.key in s.objects && (was.key == next.key || !env.acceptable(next))
    ensures HasObject(RunToEnd(env, s, ConvertCommit(id, was, next), script).0, id)
  {
    var u := UpdateOutcome(env, s, id, next, script(Commit));
    var s' := SetRow(s, u, id, next);
    if was.key != next.key {
      UndoTail(env, s', id, was, next, u.Lost?, script);
    } else if u.Done? {
      PublishTail(env, s', id, Converted, script);
    } else {
      assert RunToEnd(env, s', Finished(id, Failed), script) == (s', Failed);
    }
  }

  /** The stores after a conversion that did all its work. */
  function ConvertedStore(s: Store, id: string, was: Row, next: Row, payload: Body): Store {
    Store(if next.key == was.key then s.objects[next.key := payload]
          else s.objects[next.key := payload] - {was.key},
          s.rows[id := next])
  }

  /** What the two successful verdicts of a conversion mean. */
  lemma ConversionResult(env: Env, s: Store, id: string, script: Script)
    ensures var (s', v) := RunToEnd(env, s, ConvertLoad(id), script);
      && (v == Skipped <==> script(Load).Done? && id in s.rows && env.isJPG(s.rows[id]))
      && (v == Skipped ==> s' == s)
      && (v == Converted ==>
            && HasObject(s, id) && !env.isJPG(s.rows[id])
            && var was := s.rows[id];
            var payload, key := env.encode(s.objects[was.key]), env.jpgKey(was.key);
            && payload.Some? && key.Some? && env.acceptable(env.JPGRow(id, was, key.value, payload.value))
            && s' == ConvertedStore(s, id, was, env.JPGRow(id, was, key.value, payload.value), payload.value))
  {
    LoadTail(env, s, id, script);
    if script(Load).Done? && id in s.rows && !env.isJPG(s.rows[id]) {
      var was := s.rows[id];
      if was.key !in s.objects {
        assert RunToEnd(env, s, ConvertFetch(id, was), script) == RunToEnd(env, s, Finished(id, Failed), script);
      } else {
        FetchTail(env, s, id, was, script);
        var payload, key := env.encode(s.objects[was.key]), env.jpgKey(was.key);
        if payload.Some? && key.Some? && script(Download).Done? && script(Upload).Done? {
          CommitResult(env, Put(s, Done, key.value, payload.value), id, was,
                       env.JPGRow(id, was, key.value, payload.value), script);
        }
      }
    }
  }

  lemma CommitResult(env: Env, s: Store, id: string, was: Row, next: Row, script: Script)
    requires RowIs(s, id, was) && next.key in s.objects
    ensures var (s', v) := RunToEnd(env, s, ConvertCommit(id, was, next), script);
      && (v == Converted || v == Failed)
      && (v == Converted ==> env.acceptable(next) && s' == ConvertedStore(s, id, was, next, s.objects[next.key]))
  {
    var u := UpdateOutcome(env, s, id, next, script(Commit));
    var s' := SetRow(s, u, id, next);
    assert s.objects[next.key := s.objects[next.key]] == s.objects;
    if !u.Done? {
      if was.key == next.key {
        assert RunToEnd(env, s', Finished(id, Failed), script).1 == Failed;
      } else {
        UndoTail(env, s', id, was, next, u.Lost?, script);
      }
    } else if was.key == next.key {
      PublishTail(env, s', id, Converted, script);
    } else {
      DropTail(env, s', id, was, next, script);
      RestoreTail(env, Erase(s', script(DropOld), was.key), id, was, next, script(DropOld).Lost?, script);
    }
  }

  lemma FoldsToItself(s: string)
    ensures EqualFold(s, s)
    ensures Untrimmable(s) ==> EqualFold(TrimSpace(s), s)
  {
  }

  lemma JPGTypeIsTrimmed()
    ensures Untrimmable(JPG_TYPE)
  {
    assert JPG_TYPE[0] == 'i' && JPG_TYPE[|JPG_TYPE| - 1] == 'g';
  }

  predicate HasJPGExtension(name: string) {
    Ext(TrimSpace(name)) == ".jpg"
  }

  lemma JPGByParts(row: Row)
    ensures row.mimeType == JPG_TYPE && HasJPGExtension(row.key) && HasJPGExtension(row.originalName) ==> IsJPG(row)
  {
    JPGTypeIsTrimmed();
    FoldsToItself(JPG_TYPE);
    FoldsToItself(".jpg");
  }

  /** A row that a conversion has written is recognised as converted. */
  ghost predicate RecognisesConverted(env: Env) {
    forall id, was: Row, payload :: env.jpgKey(was.key).Some? ==>
      env.isJPG(env.JPGRow(id, was, env.jpgKey(was.key).value, payload))
  }

  lemma RealEnvRecognisesConverted(encode: Body -> Option<Body>)
    ensures RecognisesConverted(RealEnv(encode))
  {
    var env := RealEnv(encode);
    forall id, was: Row, payload | JPGKey(was.key).Some?
      ensures IsJPG(env.JPGRow(id, was, JPGKey(was.key).value, payload))
    {
      JPGKeyIsJPG(was.key);
      JPGNameIsJPG(id, was.originalName);
      JPGByParts(env.JPGRow(id, was, JPGKey(was.key).value, payload));
    }
  }

  lemma JPGKeyIsJPG(key: string)
    ensures JPGKey(key).Some? ==> HasJPGExtension(JPGKey(key).value)
  {
    if TrimSpace(key) != "" { ReplacedIsJPG(key); }
  }

  lemma JPGNameIsJPG(id: string, name: string)
    ensures HasJPGExtension(JPGName(id, name))
  {
    if IsBlank(ReplaceWithJPGExtension(name)) {
      IdNameIsJPG(TrimSpace(id));
    } else {
      BlankHasNoJPGName(name);
      ReplacedIsJPG(name);
    }
  }

  lemma BlankHasNoJPGName(name: string)
    requires !IsBlank(ReplaceWithJPGExtension(name))
    ensures TrimSpace(name) != ""
  {
  }

  lemma IdNameIsJPG(stem: string)
    requires Untrimmable(stem)
    ensures HasJPGExtension(stem + ".jpg")
  {
    ExtOfStem(stem);
    var s := stem + ".jpg";
    assert s[|s| - 1] == 'g' && s[0] == if stem == "" then '.' else stem[0];
    assert Untrimmable(s);
  }

  /** A second run skips what the first one converted, and changes nothing. */
  lemma ConvertedIsSkipped(env: Env, s: Store, id: string, first: Script, second: Script)
    requires RecognisesConverted(env)
    requires RunToEnd(env, s, ConvertLoad(id), first).1 == Converted && second(Load).Done?
    ensures var s' := RunToEnd(env, s, ConvertLoad(id), first).0;
      RunToEnd(env, s', ConvertLoad(id), second) == (s', Skipped)
  {
    ConversionResult(env, s, id, first);
    ConversionResult(env, RunToEnd(env, s, ConvertLoad(id), first).0, id, second);
  }

  /** The row that a conversion writes, as the service names and measures it. */
  ghost predicate DescribesJPG(id: string, was: Row, now: Row, payload: Body) {
    && now.mimeType == "image/jpeg" && now.size == |payload| && Renamed(was.key, now.key)
    && if TrimSpace(was.originalName) == "" then now.originalName == TrimSpace(id) + ".jpg"
       else Renamed(was.originalName, now.originalName)
  }

  /** After a conversion the row describes the re-encoded object, and key and name have kept their stems. */
  lemma ConvertedRow(encode: Body -> Option<Body>, s: Store, id: string, script: Script)
    ensures var (s', v) := RunToEnd(RealEnv(encode), s, ConvertLoad(id), script);
            v == Converted ==>
              && HasObject(s, id) && HasObject(s', id)
              && encode(s.objects[s.rows[id].key]) == Some(s'.objects[s'.rows[id].key])
              && DescribesJPG(id, s.rows[id], s'.rows[id], s'.objects[s'.rows[id].key])
              && s'.rows[id].size > 0
  {
    var env := RealEnv(encode);
    ConversionResult(env, s, id, script);
    if RunToEnd(env, s, ConvertLoad(id), script).1 == Converted {
      var was := s.rows[id];
      JPGRowDescribes(encode, id, was, encode(s.objects[was.key]).value);
    }
  }

  lemma JPGRowDescribes(encode: Body -> Option<Body>, id: string, was: Row, payload: Body)
    ensures JPGKey(was.key).Some? ==>
              DescribesJPG(id, was, RealEnv(encode).JPGRow(id, was, JPGKey(was.key).value, payload), payload)
  {
    ReplaceRenames(was.key);
    ReplaceRenames(was.originalName);
    ReplacedIsBlank(was.key);
    ReplacedIsBlank(was.originalName);
  }

  lemma ReplacedIsBlank(name: string)
    ensures IsBlank(ReplaceWithJPGExtension(name)) <==> TrimSpace(name) == ""
  {
    if TrimSpace(name) != "" { ReplacedIsJPG(name); }
  }

  predicate EndsInJPG(name: string) {
    var t := TrimSpace(name);
    |t| >= 4 && EqualFold(t[|t| - 4..], ".jpg")
  }

  /** Converted are the assets whose MIME type, key and name all say so, in any case. */
  lemma IsJPGExactly(row: Row)
    ensures IsJPG(row) <==>
            EqualFold(TrimSpace(row.mimeType), "image/jpeg") && EndsInJPG(row.key) && EndsInJPG(row.originalName)
  {
    ExtIsJPG(TrimSpace(row.key));
    ExtIsJPG(TrimSpace(row.originalName));
  }

  // ----- what happens to the original object and to the row -----

  /** A conversion gets as far as uploading. */
  predicate ReachesUpload(env: Env, s: Store, id: string, script: Script) {
    && script(Load).Done? && id in s.rows && !env.isJPG(s.rows[id])
    && script(Download).Done? && s.rows[id].key in s.objects
    && env.encode(s.objects[s.rows[id].key]).Some? && env.jpgKey(s.rows[id].key).Some?
  }

  /** The object that the row pointed at is still there, unchanged. */
  predicate OriginalKept(s: Store, s': Store, key: string) {
    key in s.objects && key in s'.objects && s'.objects[key] == s.objects[key]
  }

  /** It is overwritten by the upload under the same key, or dropped after the new row was written. */
  predicate OriginalLost(env: Env, s: Store, id: string, script: Script)
    requires HasObject(s, id)
  {
    var was := s.rows[id];
    || (ReachesUpload(env, s, id, script) && env.jpgKey(was.key).value == was.key && Effective(script(Upload))
        && env.encode(s.objects[was.key]).value != s.objects[was.key])
    || (ReachesCommit(env, s, id, script) && script(Commit).Done? && Effective(script(DropOld)))
  }

  lemma DropKeepsOriginalExactly(env: Env, s: Store, id: string, was: Row, next: Row, script: Script)
    requires id in s.rows && next.key != was.key && was.key in s.objects
    ensures OriginalKept(s, RunToEnd(env, s, ConvertDrop(id, was, next), script).0, was.key) <==>
            !Effective(script(DropOld))
  {
    DropTail(env, s, id, was, next, script);
    RestoreTail(env, Erase(s, script(DropOld), was.key), id, was, next, script(DropOld).Lost?, script);
  }

  lemma CommitKeepsOriginalExactly(env: Env, s: Store, id: string, was: Row, next: Row, script: Script)
    requires RowIs(s, id, was) && was.key in s.objects
    ensures OriginalKept(s, RunToEnd(env, s, ConvertCommit(id, was, next), script).0, was.key) <==>
            !(next.key != was.key && env.acceptable(next) && script(Commit).Done? && Effective(script(DropOld)))
  {
    var u := UpdateOutcome(env, s, id, next, script(Commit));
    var s' := SetRow(s, u, id, next);
    var (s1, pc1) := Advance(env, s, ConvertCommit(id, was, next), script(Commit));
    assert RunToEnd(env, s, ConvertCommit(id, was, next), script) == RunToEnd(env, s1, pc1, script);
    if next.key == was.key {
      if u.Done? {
        PublishTail(env, s', id, Converted, script);
      } else {
        assert RunToEnd(env, s', Finished(id, Failed), script) == (s', Failed);
      }
    } else if u.Done? {
      DropKeepsOriginalExactly(env, s', id, was, next, script);
    } else {
      UndoTail(env, s', id, was, next, u.Lost?, script);
    }
  }

  /** Exactly when a conversion leaves the original object as it was, for every choice of failing calls. */
  lemma OriginalKeptExactly(env: Env, s: Store, id: string, script: Script)
    requires HasObject(s, id)
    ensures OriginalKept(s, RunToEnd(env, s, ConvertLoad(id), script).0, s.rows[id].key) <==>
            !OriginalLost(env, s, id, script)
  {
    var was := s.rows[id];
    LoadTail(env, s, id, script);
    FetchTail(env, s, id, was, script);
    if ReachesUpload(env, s, id, script) && script(Upload).Done? {
      var payload, key := env.encode(s.objects[was.key]).value, env.jpgKey(was.key).value;
      CommitKeepsOriginalExactly(env, Put(s, Done, key, payload), id, was, env.JPGRow(id, was, key, payload), script);
    }
  }

  /** The new row is written and not taken back. */
  predicate RowMoves(env: Env, s: Store, id: string, script: Script) {
    && ReachesUpload(env, s, id, script) && script(Upload).Done?
    && var was := s.rows[id];
    var key := env.jpgKey(was.key).value;
    && env.acceptable(env.JPGRow(id, was, key, env.encode(s.objects[was.key]).value))
    && Effective(script(Commit))
    && !(script(Commit).Done? && key != was.key && !script(DropOld).Done?
         && env.acceptable(was) && Effective(script(Restore)))
  }

  lemma CommitMovesRowExactly(env: Env, s: Store, id: string, was: Row, next: Row, script: Script)
    requires RowIs(s, id, was)
    ensures var moved := env.acceptable(next) && Effective(script(Commit)) &&
                         !(script(Commit).Done? && next.key != was.key && !script(DropOld).Done?
                           && env.acceptable(was) && Effective(script(Restore)));
            RunToEnd(env, s, ConvertCommit(id, was, next), script).0.rows == s.rows[id := if moved then next else was]
  {
    var u := UpdateOutcome(env, s, id, next, script(Commit));
    var s' := SetRow(s, u, id, next);
    var (s1, pc1) := Advance(env, s, ConvertCommit(id, was, next), script(Commit));
    assert RunToEnd(env, s, ConvertCommit(id, was, next), script) == RunToEnd(env, s1, pc1, script);
    assert s.rows[id := was] == s.rows;
    if next.key == was.key {
      if u.Done? {
        PublishTail(env, s', id, Converted, script);
      } else {
        assert RunToEnd(env, s', Finished(id, Failed), script) == (s', Failed);
      }
    } else if u.Done? {
      DropTail(env, s', id, was, next, script);
      RestoreTail(env, Erase(s', script(DropOld), was.key), id, was, next, script(DropOld).Lost?, script);
    } else {
      UndoTail(env, s', id, was, next, u.Lost?, script);
    }
  }

  /** Exactly which row a conversion leaves, for every choice of failing calls; no other row changes. */
  lemma RowAfterConversion(env: Env, s: Store, id: string, script: Script)
    requires HasObject(s, id)
    ensures RunToEnd(env, s, ConvertLoad(id), script).0.rows ==
            if RowMoves(env, s, id, script)
            then s.rows[id := env.JPGRow(id, s.rows[id], env.jpgKey(s.rows[id].key).value,
                                         env.encode(s.objects[s.rows[id].key]).value)]
            else s.rows
  {
    var was := s.rows[id];
    LoadTail(env, s, id, script);
    FetchTail(env, s, id, was, script);
    assert s.rows[id := was] == s.rows;
    if ReachesUpload(env, s, id, script) && script(Upload).Done? {
      var payload, key := env.encode(s.objects[was.key]).value, env.jpgKey(was.key).value;
      CommitMovesRowExactly(env, Put(s, Done, key, payload), id, was, env.JPGRow(id, was, key, payload), script);
    }
  }

  /**
   An image of another type whose key ends in .jpg: when its row cannot be updated, the conversion fails, and the row
   stays as it was, but its object has been replaced.
   */
  lemma MislabelledIsOverwritten(env: Env, s: Store, id: string, script: Script)
    requires HasObject(s, id) && IsMislabelled(env, s.rows[id])
    requires var body := s.objects[s.rows[id].key]; env.encode(body).Some? && env.encode(body).value != body
    requires script(Load).Done? && script(Download).Done? && script(Upload).Done? && script(Commit).Refused?
    ensures var (s', v) := RunToEnd(env, s, ConvertLoad(id), script);
            v == Failed && s'.rows == s.rows && !OriginalKept(s, s', s.rows[id].key)
  {
    OriginalKeptExactly(env, s, id, script);
    RowAfterConversion(env, s, id, script);
    ConversionResult(env, s, id, script);
    MislabelledIsNotConverted(env, s, id, script);
  }

  lemma MislabelledIsNotConverted(env: Env, s: Store, id: string, script: Script)
    requires HasObject(s, id) && !env.isJPG(s.rows[id]) && script(Commit).Refused?
    ensures RunToEnd(env, s, ConvertLoad(id), script).1 == Failed
  {
    var was := s.rows[id];
    LoadTail(env, s, id, script);
    FetchTail(env, s, id, was, script);
    if ReachesUpload(env, s, id, script) && script(Upload).Done? {
      var payload, key := env.encode(s.objects[was.key]).value, env.jpgKey(was.key).value;
      var next := env.JPGRow(id, was, key, payload);
      var s1 := Put(s, Done, key, payload);
      if key != was.key {
        UndoTail(env, s1, id, was, next, false, script);
      } else {
        assert RunToEnd(env, s1, Finished(id, Failed), script) == (s1, Failed);
      }
    }
  }

  predicate IsMislabelled(env: Env, row: Row) {
    env.jpgKey(row.key) == Some(row.key) && !env.isJPG(row)
  }

  /** Uploading any image that is not a JPG under a name that ends in .jpg creates such a row. */
  lemma JPGNamesAreMislabelled(
      encode: Body -> Option<Body>, id: string, name: string, mimeType: string, size: nat)
    requires ValidId(id) && IsPlainName(name) && !EqualFold(TrimSpace(mimeType), JPG_TYPE)
    ensures IsMislabelled(RealEnv(encode),
                          Row(TrimSpace(BuildStorageKey(id, name + ".jpg")), name + ".jpg", mimeType, size))
  {
    var key := BuildStorageKey(id, name + ".jpg");
    PlainKey(id, name);
    OwnerPrefixIsDense(id, name);
    TypeOfJPG(Row(TrimSpace(key), name + ".jpg", mimeType, size));
    JPGKeyStays(OwnerPrefix(id) + name);
  }

  lemma TypeOfJPG(row: Row)
    ensures IsJPG(row) ==> EqualFold(TrimSpace(row.mimeType), JPG_TYPE)
  {
  }

  lemma JPGKeyStays(stem: string)
    requires stem != "" && !IsSpace(stem[0])
    ensures Untrimmable(stem + ".jpg") && JPGKey(stem + ".jpg") == Some(stem + ".jpg")
  {
    var key := stem + ".jpg";
    assert key[|key| - 1] == 'g' && key[0] == stem[0];
    ExtOfStem(stem);
    assert key[..|key| - |Ext(key)|] == stem;
    assert ReplaceWithJPGExtension(key) == key;
  }

  // ----- creation -----

  /** All that a creation can do to the stores, and exactly when it leaves a row without an object. */
  lemma CreationResult(env: Env, s: Store, id: string, row: Row, body: Body, script: Script)
    requires id !in s.rows && row.key !in s.objects
    ensures var (s', v) := RunToEnd(env, s, CreateUpload(id, row, body), script);
      && (v == Created ==> s' == Store(s.objects[row.key := body], s.rows[id := row]))
      && (v == Created || v == Failed)
      && ((v == Failed && !script(Upload).Lost? && !script(Commit).Lost? && Effective(script(Undo))
           && script(Publish).Done?) ==> s' == s)
      && (id in s'.rows && row.key !in s'.objects <==>
            script(Upload).Done? && script(Commit).Lost? && Effective(script(Undo)))
  {
    var (s1, pc1) := Advance(env, s, CreateUpload(id, row, body), script(Upload));
    if script(Upload).Done? {
      var (s2, pc2) := Advance(env, s1, pc1, script(Commit));
      assert RunToEnd(env, s1, pc1, script) == RunToEnd(env, s2, pc2, script);
      if script(Commit).Done? {
        PublishTail(env, s2, id, Created, script);
      } else {
        var (s3, pc3) := Advance(env, s2, pc2, script(Undo));
        assert RunToEnd(env, s2, pc2, script) == RunToEnd(env, s3, pc3, script) == (s3, Failed);
        assert s.objects[row.key := body] - {row.key} == s.objects;
      }
    } else {
      assert RunToEnd(env, s1, pc1, script) == (s1, Failed);
    }
  }
}

/** The asset service: one method per use case, updating the two stores in place. */
module AssetService {
  import opened Basics
  import opened AssetSaga
  import opened AssetRuns

  datatype WorkerResult = WorkerResult(scanned: nat, converted: nat, skipped: nat, failed: nat)

  /** The verdicts and the stores after converting a list of assets one after the other. */
  function Batch(env: Env, s: Store, ids: seq<string>, scripts: nat -> Script): (r: (Store, seq<Verdict>))
    ensures |r.1| == |ids|
  {
    if ids == [] then (s, [])
    else
      var n := |ids| - 1;
      var (s1, verdicts) := Batch(env, s, ids[..n], scripts);
      var (s2, v) := RunToEnd(env, s1, ConvertLoad(ids[n]), scripts(n));
      (s2, verdicts + [v])
  }

  function Tally(verdicts: seq<Verdict>, v: Verdict): nat {
    multiset(verdicts)[v]
  }

  lemma BatchExtends(env: Env, s: Store, ids: seq<string>, i: nat, scripts: nat -> Script)
    requires i < |ids|
    ensures var (s1, verdicts) := Batch(env, s, ids[..i], scripts);
      var (s2, v) := RunToEnd(env, s1, ConvertLoad(ids[i]), scripts(i));
      Batch(env, s, ids[..i + 1], scripts) == (s2, verdicts + [v])
  {
    assert ids[..i + 1][..i] == ids[..i];
  }

  /** The counters for a list of verdicts; what is neither converted nor skipped has failed. */
  ghost predicate Counts(r: WorkerResult, verdicts: seq<Verdict>) {
    && r.converted == Tally(verdicts, Converted) && r.skipped == Tally(verdicts, Skipped)
    && r.converted + r.skipped + r.failed == |verdicts|
  }

  function Counted(r: WorkerResult, v: Verdict): WorkerResult {
    if v == Converted then r.(converted := r.converted + 1)
    else if v == Skipped then r.(skipped := r.skipped + 1)
    else r.(failed := r.failed + 1)
  }

  lemma CountsExtend(r: WorkerResult, verdicts: seq<Verdict>, v: Verdict)
    requires Counts(r, verdicts)
    ensures Counts(Counted(r, v), verdicts + [v])
  {
  }

  class AssetService {
    const env: Env
    var objects: map<string, Body>
    var rows: map<string, Row>

    constructor (env: Env)
      ensures Snapshot() == Store(map[], map[]) && this.env == env
    {
      this.env := env;
      objects, rows := map[], map[];
    }

    function Snapshot(): Store
      reads this
    {
      Store(objects, rows)
    }

    method UploadObject(key: string, body: Body, o: Outcome) returns (ok: bool)
      modifies this`objects
      ensures Snapshot() == Put(old(Snapshot()), o, key, body) && ok == o.Done?
    {
      if !o.Refused? { objects := objects[key := body]; }
      ok := o.Done?;
    }

    method DeleteObject(key: string, o: Outcome) returns (ok: bool)
      modifies this`objects
      ensures Snapshot() == Erase(old(Snapshot()), o, key) && ok == o.Done?
    {
      if !o.Refused? { objects := objects - {key}; }
      ok := o.Done?;
    }

    method UpdateBinary(id: string, row: Row, o: Outcome) returns (ok: bool)
      modifies this`rows
      ensures var u := UpdateOutcome(env, old(Snapshot()), id, row, o);
        Snapshot() == SetRow(old(Snapshot()), u, id, row) && ok == u.Done?
    {
      if id !in rows || !env.acceptable(row) { return false; }
      if !o.Refused? { rows := rows[id := row]; }
      ok := o.Done?;
    }

    /** Uploads the object, stores the row, and takes the object back when the row is not stored. */
    method Create(id: string, row: Row, body: Body, script: Script) returns (v: Verdict)
      modifies this
      ensures (Snapshot(), v) == RunToEnd(env, old(Snapshot()), CreateUpload(id, row, body), script)
    {
      ghost var s := Snapshot();
      ghost var (s1, pc1) := Advance(env, s, CreateUpload(id, row, body), script(Upload));
      var ok := UploadObject(row.key, body, script(Upload));
      if !ok {
        assert RunToEnd(env, s1, pc1, script) == (s1, Failed);
        return Failed;
      }
      ghost var (s2, pc2) := Advance(env, s1, pc1, script(Commit));
      assert RunToEnd(env, s1, pc1, script) == RunToEnd(env, s2, pc2, script);
      if !script(Commit).Refused? { rows := rows[id := row]; }
      if !script(Commit).Done? {
        ghost var (s3, pc3) := Advance(env, s2, pc2, script(Undo));
        assert RunToEnd(env, s2, pc2, script) == RunToEnd(env, s3, pc3, script) == (s3, Failed);
        ok := DeleteObject(row.key, script(Undo));
        return Failed;
      }
      PublishTail(env, s2, id, Created, script);
      v := if script(Publish).Done? then Created else Failed;
    }

    /** Removes the row; the object stays. */
    method Delete(id: string, script: Script) returns (v: Verdict)
      modifies this`rows
      ensures (Snapshot(), v) == RunToEnd(env, old(Snapshot()), DeleteLoad(id), script)
      ensures v == Deleted ==> id in old(rows) && rows == old(rows) - {id}
    {
      ghost var s := Snapshot();
      ghost var (s1, pc1) := Advance(env, s, DeleteLoad(id), script(Load));
      if !script(Load).Done? || id !in rows {
        assert RunToEnd(env, s1, pc1, script) == (s1, Failed);
        return Failed;
      }
      ghost var (s2, pc2) := Advance(env, s1, pc1, script(Remove));
      assert RunToEnd(env, s1, pc1, script) == RunToEnd(env, s2, pc2, script);
      if !script(Remove).Refused? { rows := rows - {id}; }
      if !script(Remove).Done? {
        assert RunToEnd(env, s2, pc2, script) == (s2, Failed);
        return Failed;
      }
      PublishTail(env, s2, id, Deleted, script);
      v := if script(Publish).Done? then Deleted else Failed;
    }

    method ConvertAssetToJPG(id: string, script: Script) returns (v: Verdict)
      modifies this
      ensures (Snapshot(), v) == RunToEnd(env, old(Snapshot()), ConvertLoad(id), script)
      ensures v == Converted || v == Skipped || v == Failed
    {
      LoadTail(env, Snapshot(), id, script);
      if !script(Load).Done? || id !in rows { return Failed; }
      var current := rows[id];
      if env.isJPG(current) { return Skipped; }

      if !script(Download).Done? || current.key !in objects {
        ghost var s := Snapshot();
        assert RunToEnd(env, s, ConvertFetch(id, current), script) == RunToEnd(env, s, Finished(id, Failed), script);
        return Failed;
      }
      FetchTail(env, Snapshot(), id, current, script);
      var payload := env.encode(objects[current.key]);
      if payload.None? { return Failed; }
      var newKey := env.jpgKey(current.key);
      if newKey.None? { return Failed; }
      var next := env.JPGRow(id, current, newKey.value, payload.value);

      var ok := UploadObject(next.key, payload.value, script(Upload));
      if !ok { return Failed; }
      v := ReplaceRow(id, current, next, script);
    }

    /** The second half of a conversion: write the new row, remove the old object, undo what fails. */
    method ReplaceRow(id: string, current: Row, next: Row, script: Script) returns (v: Verdict)
      requires id in rows
      modifies this
      ensures (Snapshot(), v) == RunToEnd(env, old(Snapshot()), ConvertCommit(id, current, next), script)
      ensures v == Converted || v == Failed
    {
      ghost var s := Snapshot();
      ghost var (s1, pc1) := Advance(env, s, ConvertCommit(id, current, next), script(Commit));
      var ok := UpdateBinary(id, next, script(Commit));
      if !ok {
        if next.key != current.key {
          UndoTail(env, s1, id, current, next, pc1.lost, script);
          ok := DeleteObject(next.key, script(Undo));
        } else {
          assert RunToEnd(env, s1, pc1, script) == (s1, Failed);
        }
        return Failed;
      }
      if next.key != current.key {
        DropTail(env, s1, id, current, next, script);
        ok := DeleteObject(current.key, script(DropOld));
        if !ok {
          RestoreTail(env, Snapshot(), id, current, next, script(DropOld).Lost?, script);
          ok := UpdateBinary(id, current, script(Restore));
          if ok { ok := DeleteObject(next.key, script(DropNew)); }
          return Failed;
        }
      } else {
        PublishTail(env, s1, id, Converted, script);
      }
      v := if script(Publish).Done? then Converted else Failed;
    }

    /** Converts the listed assets in turn; stops before asset `stopAt` when the caller gives up there. */
    method RunJPGWorker(assets: seq<string>, stopAt: nat, scripts: nat -> Script) returns (r: WorkerResult)
      modifies this
      ensures r.scanned == |assets|
      ensures var done := if stopAt < |assets| then assets[..stopAt] else assets;
        var (s', verdicts) := Batch(env, old(Snapshot()), done, scripts);
        Snapshot() == s' && Counts(r, verdicts)
    {
      r := WorkerResult(|assets|, 0, 0, 0);
      ghost var s := Snapshot();
      ghost var verdicts: seq<Verdict> := [];
      var i := 0;
      while i < |assets| && i != stopAt
        invariant 0 <= i <= |assets| && i <= stopAt
        invariant (Snapshot(), verdicts) == Batch(env, s, assets[..i], scripts)
        invariant r.scanned == |assets| && Counts(r, verdicts)
      {
        var v := ConvertAssetToJPG(assets[i], scripts(i));
        BatchExtends(env, s, assets, i, scripts);
        CountsExtend(r, verdicts, v);
        verdicts := verdicts + [v];
        r := Counted(r, v);
        i := i + 1;
      }
      assert assets[..|assets|] == assets;
    }
  }
}
