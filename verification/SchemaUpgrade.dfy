/** The version upgrade of the history database: `enforceIntegrity` and its three updates. */
module SchemaUpgrade {
  import opened Options
  import opened Database

  const TARGET_DB_VER := 3

  /** A set of schema objects, one bit each. */
  type Objects = bv8
  const META: Objects := 1
  const TRANSFERS: Objects := 2
  const IDX_TRANSFER_TARGET: Objects := 4
  const TRANSFER_PATHS: Objects := 8
  const IDX_PATH_FOREIGN_KEY: Objects := 16
  const DBG_TRANSFERS: Objects := 32
  const TARGETS: Objects := 64
  const TARGET_VIEW: Objects := 128

  /** What the database file holds; `version` is the `db_version` row of `meta`. */
  datatype Schema = Schema(objects: Objects, version: Option<int>) {
    predicate Has(item: Objects) {
      objects & item != 0
    }
  }

  const VERSION_1: Objects := 63
  const VERSION_2: Objects := 127
  const VERSION_3: Objects := 255

  function ObjectsOf(version: Option<int>): Objects {
    match version
    case None => 0
    case Some(v) => if v <= 1 then VERSION_1 else if v == 2 then VERSION_2 else VERSION_3
  }

  /** The file holds exactly the objects that its version number promises. */
  predicate Consistent(schema: Schema) {
    && (schema.version.Some? ==> 1 <= schema.version.value <= TARGET_DB_VER)
    && schema.objects == ObjectsOf(schema.version)
  }

  function Level(schema: Schema): int {
    if schema.version.Some? then schema.version.value else 0
  }

  /** The database lets the update from this level through. */
  predicate Applies(schema: Schema, level: int) {
    match level
    case 0 =>
      schema.version.None? && !schema.Has(IDX_TRANSFER_TARGET) && !schema.Has(IDX_PATH_FOREIGN_KEY) &&
      !schema.Has(DBG_TRANSFERS)
    case 1 => schema.Has(META)
    case 2 => schema.Has(META) && !schema.Has(TARGET_VIEW)
    case _ => false
  }

  function Upgraded(schema: Schema, level: int): Schema {
    match level
    case 0 => Schema(schema.objects | VERSION_1, Some(1))
    case 1 => Schema(schema.objects | TARGETS, if schema.version.Some? then Some(2) else None)
    case 2 => Schema(schema.objects | TARGET_VIEW, if schema.version.Some? then Some(3) else None)
    case _ => schema
  }

  /** Every command of the update from this level succeeds, as far as the environment goes. */
  predicate Undisturbed(level: int, outcome: Outcome) {
    forall i :: 0 <= i < (if level == 0 then 7 else 2) ==> outcome(i) == SQLITE_OK
  }

  /** A file from which the upgrade can end: it is up to date, or nothing that an update will
      create is there already. */
  predicate Upgradable(schema: Schema) {
    match schema.version
    case None => Applies(schema, 0) && !schema.Has(TARGET_VIEW)
    case Some(v) => v >= TARGET_DB_VER || (v in {1, 2} && schema.Has(META) && !schema.Has(TARGET_VIEW))
  }

  /** The upgrade so far: the version never went down, no object was lost, a file with the
      objects of its version kept to that, and the file is upgradable if it was. */
  predicate Kept(start: Schema, schema: Schema) {
    && Level(start) <= Level(schema) && schema.objects & start.objects == start.objects
    && (Consistent(start) ==> Consistent(schema))
    && (Level(start) >= TARGET_DB_VER ==> schema == start)
    && (Upgradable(schema) <==> Upgradable(start))
  }

  /** The version that was read last is the file's, or one behind, or none was read. */
  predicate Tracked(schema: Schema, currentVersion: int) {
    currentVersion == 0 || (schema.version.Some? && currentVersion <= Level(schema) <= currentVersion + 1)
  }

  lemma UpgradedObjects(schema: Schema, level: int)
    requires Applies(schema, level) && Tracked(schema, level)
    ensures Upgradable(Upgraded(schema, level)) <==> Upgradable(schema)
    ensures Upgraded(schema, level).objects & schema.objects == schema.objects
    ensures Consistent(schema) ==> Consistent(Upgraded(schema, level))
  {
  }

  lemma UpgradedLevel(schema: Schema, level: int)
    requires Applies(schema, level) && Tracked(schema, level)
    ensures Upgraded(schema, level).version == Some(level + 1) && Level(schema) <= level + 1 <= TARGET_DB_VER
  {
    hide Schema.Has;
  }

  lemma ObjectsGrow(a: Objects, b: Objects, c: Objects)
    requires b & a == a && c & b == b
    ensures c & a == a
  {
  }

  lemma UpgradedFacts(start: Schema, schema: Schema, level: int)
    requires Kept(start, schema) && Tracked(schema, level) && Applies(schema, level)
    requires Level(start) < TARGET_DB_VER
    ensures Kept(start, Upgraded(schema, level)) && Upgraded(schema, level).version == Some(level + 1)
  {
    hide Applies, Upgraded, Upgradable, Consistent;
    UpgradedObjects(schema, level);
    UpgradedLevel(schema, level);
    ObjectsGrow(start.objects, schema.objects, Upgraded(schema, level).objects);
  }

  datatype Command =
    | CreateIfMissing(item: Objects)
    | Create(item: Objects)
    | InsertVersion(version: int)
    | UpdateVersion(version: int)
  {
    /** A command the database itself refuses, whatever the environment does. */
    predicate Refused(schema: Schema) {
      match this
      case CreateIfMissing(_) => false
      case Create(item) => schema.Has(item)
      case InsertVersion(_) => !schema.Has(META) || schema.version.Some?
      case UpdateVersion(_) => !schema.Has(META)
    }

    function Effect(schema: Schema): Schema {
      match this
      case CreateIfMissing(item) => schema.(objects := schema.objects | item)
      case Create(item) => schema.(objects := schema.objects | item)
      case InsertVersion(version) => schema.(version := Some(version))
      case UpdateVersion(version) => if schema.version.Some? then schema.(version := Some(version)) else schema
    }
  }

  /** One round of the loop: whether the version could be read, and the code the environment
      gives to the n-th command of the update. */
  datatype Round = Round(readable: bool, outcome: Outcome) {
    ghost predicate Good() {
      readable && forall i :: outcome(i) == SQLITE_OK
    }
  }

  class UpgradingDatabase {
    var schema: Schema
    var dbOpen: bool

    constructor (schema: Schema, dbOpen: bool)
      ensures this.schema == schema && this.dbOpen == dbOpen
    {
      this.schema := schema;
      this.dbOpen := dbOpen;
    }

    /** `UPD_EXEC`: `results |= sqlite3_exec( ... )`, here without `FIX_RESULTS`. */
    method UpdExec(command: Command, code: Code, results: Code) returns (updated: Code)
      modifies this`schema
      ensures updated == SQLITE_OK <==> results == SQLITE_OK && code == SQLITE_OK && !command.Refused(old(schema))
      ensures schema == if code == SQLITE_OK && !command.Refused(old(schema)) then command.Effect(old(schema)) else old(schema)
    {
      var answer := if command.Refused(schema) then SQLITE_ERROR else code;
      if answer == SQLITE_OK {
        schema := command.Effect(schema);
      }
      updated := results | answer;
    }

    method UpdateFromVer0ToVer1(outcome: Outcome) returns (ok: bool)
      modifies this`schema
      ensures ok <==> Undisturbed(0, outcome) && Applies(old(schema), 0)
      ensures ok ==> schema == Upgraded(old(schema), 0)
    {
      var results: Code := 0;
      results := UpdExec(CreateIfMissing(META), outcome(0), results);
      results := UpdExec(CreateIfMissing(TRANSFERS), outcome(1), results);
      results := UpdExec(Create(IDX_TRANSFER_TARGET), outcome(2), results);
      results := UpdExec(CreateIfMissing(TRANSFER_PATHS), outcome(3), results);
      results := UpdExec(Create(IDX_PATH_FOREIGN_KEY), outcome(4), results);
      results := UpdExec(Create(DBG_TRANSFERS), outcome(5), results);
      results := UpdExec(InsertVersion(1), outcome(6), results);
      ok := results == SQLITE_OK;
    }

    method UpdateFromVer1ToVer2(outcome: Outcome) returns (ok: bool)
      modifies this`schema
      ensures ok <==> Undisturbed(1, outcome) && Applies(old(schema), 1)
      ensures ok ==> schema == Upgraded(old(schema), 1)
    {
      var results: Code := 0;
      results := UpdExec(CreateIfMissing(TARGETS), outcome(0), results);
      results := UpdExec(UpdateVersion(2), outcome(1), results);
      ok := results == SQLITE_OK;
    }

    method UpdateFromVer2ToVer3(outcome: Outcome) returns (ok: bool)
      modifies this`schema
      ensures ok <==> Undisturbed(2, outcome) && Applies(old(schema), 2)
      ensures ok ==> schema == Upgraded(old(schema), 2)
    {
      var results: Code := 0;
      results := UpdExec(Create(TARGET_VIEW), outcome(0), results);
      results := UpdExec(UpdateVersion(3), outcome(1), results);
      ok := results == SQLITE_OK;
    }

    /** One update in a transaction: whole, or not at all. */
    method PerformUpdate(currentLevel: int, outcome: Outcome)
      modifies this`schema
      ensures schema ==
        if Undisturbed(currentLevel, outcome) && Applies(old(schema), currentLevel) then Upgraded(old(schema), currentLevel)
        else old(schema)
    {
      hide Applies, Upgraded;
      var saved := schema;
      var updateSuccess := false;
      if currentLevel == 0 {
        updateSuccess := UpdateFromVer0ToVer1(outcome);
      } else if currentLevel == 1 {
        updateSuccess := UpdateFromVer1ToVer2(outcome);
      } else if currentLevel == 2 {
        updateSuccess := UpdateFromVer2ToVer3(outcome);
      } else {
        OtherLevels(schema, currentLevel);
      }
      if !updateSuccess {
        schema := saved;
      }
    }

    /** The upgrade loop, cut after the given rounds. It can end exactly from an upgradable file,
        and then four good rounds suffice; the version never goes down, no object is lost, and a
        file with the objects of its version keeps to that, and ends with all eight objects and
        version 3. */
    method EnforceIntegrity(rounds: seq<Round>) returns (finished: bool)
      modifies this`schema
      ensures Level(old(schema)) <= Level(schema) && schema.objects & old(schema.objects) == old(schema.objects)
      ensures Consistent(old(schema)) ==> Consistent(schema)
      ensures Level(old(schema)) >= TARGET_DB_VER ==> schema == old(schema)
      ensures finished ==> dbOpen && Upgradable(old(schema)) && Level(schema) >= TARGET_DB_VER
      ensures finished && Consistent(old(schema)) ==> schema == Schema(0xFF, Some(3))
      ensures !dbOpen ==> !finished && schema == old(schema)
      ensures dbOpen && Upgradable(old(schema)) && |rounds| >= 4 && (forall i :: 0 <= i < 4 ==> rounds[i].Good()) ==> finished
    {
      hide Applies, Upgraded, Upgradable, Kept, Tracked;
      finished := false;
      KeptFacts(schema, schema);
      if !dbOpen {
        return;
      }
      var currentVersion := 0;
      NothingRead(schema);
      Advances(schema, 0);
      for i := 0 to |rounds|
        invariant Kept(old(schema), schema) && Tracked(schema, currentVersion) && currentVersion < TARGET_DB_VER
        invariant Level(old(schema)) >= TARGET_DB_VER ==> currentVersion == 0
        invariant Upgradable(old(schema)) && (forall k :: 0 <= k < i && k < 4 ==> rounds[k].Good()) ==>
          i <= 3 && i <= Level(schema)
      {
        currentVersion := RunRound(rounds[i], currentVersion, old(schema));
        KeptFacts(old(schema), schema);
        if currentVersion >= TARGET_DB_VER {
          return true;
        }
      }
      KeptFacts(old(schema), schema);
    }

    /** One round: reads the version, and updates the file if it is behind. */
    method RunRound(round: Round, lastVersion: int, ghost start: Schema) returns (currentVersion: int)
      requires Kept(start, schema) && Tracked(schema, lastVersion) && lastVersion < TARGET_DB_VER
      requires Level(start) >= TARGET_DB_VER ==> lastVersion == 0
      modifies this`schema
      ensures Kept(start, schema) && Tracked(schema, currentVersion)
      ensures Level(old(schema)) <= Level(schema)
      ensures Level(start) >= TARGET_DB_VER && currentVersion < TARGET_DB_VER ==> currentVersion == 0
      ensures currentVersion >= TARGET_DB_VER ==> schema == old(schema) && currentVersion == Level(schema) && Upgradable(start)
      ensures round.Good() && Upgradable(start) && currentVersion < TARGET_DB_VER ==>
        Level(old(schema)) < TARGET_DB_VER && Level(schema) == Level(old(schema)) + 1
    {
      hide Applies, Upgraded, Upgradable, Kept;
      currentVersion := lastVersion;
      if round.readable && schema.version.Some? {
        currentVersion := schema.version.value;
      }
      Advances(schema, currentVersion);
      KeptFacts(start, schema);
      if currentVersion < TARGET_DB_VER {
        if Applies(schema, currentVersion) {
          UpgradedFacts(start, schema, currentVersion);
        }
        PerformUpdate(currentVersion, round.outcome);
      }
    }
  }

  lemma KeptFacts(start: Schema, schema: Schema)
    ensures Kept(start, schema) ==>
      && Level(start) <= Level(schema) && schema.objects & start.objects == start.objects
      && (Consistent(start) ==> Consistent(schema))
      && (Level(start) >= TARGET_DB_VER ==> schema == start)
      && (Upgradable(schema) <==> Upgradable(start))
    ensures Kept(schema, schema)
  {
  }

  lemma NothingRead(schema: Schema)
    ensures Tracked(schema, 0)
  {
  }

  lemma OtherLevels(schema: Schema, level: int)
    requires level !in {0, 1, 2}
    ensures !Applies(schema, level)
  {
  }

  /** In an upgradable file the update of its own version goes through. */
  lemma Advances(schema: Schema, level: int)
    ensures Upgradable(schema) && level == Level(schema) < TARGET_DB_VER ==> Applies(schema, level)
    ensures level == 0 && Applies(schema, level) ==> schema.version.None?
    ensures schema.version.Some? && Level(schema) >= TARGET_DB_VER ==> Upgradable(schema)
    ensures Upgradable(schema) ==> Level(schema) >= 0
  {
  }
}
