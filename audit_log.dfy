/**
 * EncryptedDB: the sqlite table `logs (id INTEGER PRIMARY KEY, ts REAL,
 * blob TEXT)`, created if absent, into which every analysis result is
 * inserted as one row holding the time and the encrypted JSON text.
 */
module AuditLog {
  import opened Wrappers
  import opened Crypto
  import Pipeline

  datatype Row = Row(id: int, ts: real, blob: Bytes)

  /** The database file: whether table `logs` exists, and its rows in insertion order. */
  datatype DbState = DbState(tableExists: bool, rows: seq<Row>)

  /** A missing table holds no rows: true of every sqlite file. */
  ghost predicate Consistent(s: DbState)
  {
    !s.tableExists ==> s.rows == []
  }

  /**
   * Ids 1, 2, 3, ... in insertion order: what an append-only table gets from
   * sqlite when nothing but this program writes it.
   */
  ghost predicate WellFormed(s: DbState)
  {
    && Consistent(s)
    && forall k :: 0 <= k < |s.rows| ==> s.rows[k].id == k + 1
  }

  /** The largest id in a non-empty table. */
  function MaxId(rows: seq<Row>): (m: int)
    requires rows != []
    ensures forall k :: 0 <= k < |rows| ==> rows[k].id <= m
    ensures exists k :: 0 <= k < |rows| && rows[k].id == m
  {
    if |rows| == 1 then rows[0].id
    else
      var rest := MaxId(rows[1..]);
      assert forall k :: 1 <= k < |rows| ==> rows[k] == rows[1..][k - 1];
      if rows[0].id > rest then rows[0].id else rest
  }

  /**
   * sqlite's choice of id for a row inserted without one: 1 in an empty
   * table, otherwise one more than the largest id in use.
   */
  function NextId(rows: seq<Row>): (id: int)
    ensures rows == [] ==> id == 1
    ensures forall k :: 0 <= k < |rows| ==> rows[k].id < id
    ensures rows != [] ==> exists k :: 0 <= k < |rows| && rows[k].id == id - 1
  {
    if rows == [] then 1 else MaxId(rows) + 1
  }

  /** In a table with ids 1..n the next id is n + 1. */
  lemma {:induction false} NextIdIsCountPlusOne(rows: seq<Row>)
    requires forall k :: 0 <= k < |rows| ==> rows[k].id == k + 1
    ensures NextId(rows) == |rows| + 1
  {
    if rows != [] {
      var last := |rows| - 1;
      assert rows[last].id == |rows|;
      assert NextId(rows) <= |rows| + 1 by {
        var k :| 0 <= k < |rows| && rows[k].id == NextId(rows) - 1;
      }
    }
  }

  /** CREATE TABLE IF NOT EXISTS logs (...). */
  function CreateTableIfNotExists(s: DbState): DbState
  {
    if s.tableExists then s else DbState(true, [])
  }

  /**
   * Creating the table keeps the rows of a consistent file, keeps its ids as
   * they were, and a second time changes nothing.
   */
  lemma CreateTableProperties(s: DbState)
    requires Consistent(s)
    ensures var t := CreateTableIfNotExists(s);
      && Consistent(t) && t.tableExists && t.rows == s.rows
      && (WellFormed(s) ==> WellFormed(t))
      && CreateTableIfNotExists(t) == t
  {
  }

  /** INSERT INTO logs (ts, blob) VALUES (?, ?). */
  function Insert(s: DbState, ts: real, blob: Bytes): DbState
    requires s.tableExists
  {
    DbState(true, s.rows + [Row(NextId(s.rows), ts, blob)])
  }

  /**
   * An insert adds exactly one row, with a fresh id, the given time and blob,
   * after the unchanged earlier rows; in a table with ids 1..n that id is n + 1.
   */
  lemma InsertAppendsOneRow(s: DbState, ts: real, blob: Bytes)
    requires s.tableExists
    ensures var t := Insert(s, ts, blob);
      && Consistent(t) && t.tableExists
      && |t.rows| == |s.rows| + 1
      && t.rows[..|s.rows|] == s.rows
      && t.rows[|s.rows|] == Row(NextId(s.rows), ts, blob)
      && (forall k :: 0 <= k < |s.rows| ==> t.rows[k].id != t.rows[|s.rows|].id)
      && (WellFormed(s) ==> WellFormed(t) && t.rows[|s.rows|].id == |s.rows| + 1)
  {
    assert (s.rows + [Row(NextId(s.rows), ts, blob)])[..|s.rows|] == s.rows;
    if WellFormed(s) {
      NextIdIsCountPlusOne(s.rows);
    }
  }

  /** Insert one row per (time, blob) entry, in order. */
  function InsertAll(s: DbState, entries: seq<(real, Bytes)>): DbState
    requires s.tableExists
    decreases |entries|
  {
    if entries == [] then s
    else InsertAll(Insert(s, entries[0].0, entries[0].1), entries[1..])
  }

  /** After N inserts there are exactly N more rows, the new ones carry the entries, and the old ones are unchanged. */
  lemma {:induction false} InsertAllGrows(s: DbState, entries: seq<(real, Bytes)>)
    requires WellFormed(s) && s.tableExists
    ensures var t := InsertAll(s, entries);
      && WellFormed(t) && t.tableExists
      && |t.rows| == |s.rows| + |entries|
      && t.rows[..|s.rows|] == s.rows
      && forall k :: 0 <= k < |entries| ==>
           t.rows[|s.rows| + k] == Row(|s.rows| + k + 1, entries[k].0, entries[k].1)
    decreases |entries|
  {
    if entries != [] {
      var s1 := Insert(s, entries[0].0, entries[0].1);
      InsertAppendsOneRow(s, entries[0].0, entries[0].1);
      InsertAllGrows(s1, entries[1..]);
      var t := InsertAll(s1, entries[1..]);
      assert t.rows[..|s.rows|] == t.rows[..|s1.rows|][..|s.rows|];
      forall k | 0 <= k < |entries|
        ensures t.rows[|s.rows| + k] == Row(|s.rows| + k + 1, entries[k].0, entries[k].1)
      {
        if k == 0 {
          assert t.rows[|s.rows|] == t.rows[..|s1.rows|][|s.rows|];
        } else {
          assert entries[k] == entries[1..][k - 1];
        }
      }
    }
  }

  /** The sqlite database file at db_path. */
  class Database {
    var state: DbState

    constructor (initial: DbState)
      requires Consistent(initial)
      ensures state == initial
    {
      state := initial;
    }
  }

  class EncryptedDb {
    const db: Database
    const crypto: AesGcmCrypto

    ghost predicate Valid()
      reads this, db
    {
      Consistent(db.state) && db.state.tableExists
    }

    /** EncryptedDB(db_path, crypto): remember both, then create the table if needed. */
    constructor (db: Database, crypto: AesGcmCrypto)
      requires Consistent(db.state)
      modifies db
      ensures this.db == db && this.crypto == crypto
      ensures Valid()
      ensures db.state == CreateTableIfNotExists(old(db.state))
      ensures db.state.rows == old(db.state.rows)
      ensures WellFormed(old(db.state)) ==> WellFormed(db.state)
    {
      this.db := db;
      this.crypto := crypto;
      new;
      InitDb();
    }

    /** _init_db: safe to call on every start; it never touches existing rows. */
    method InitDb()
      requires Consistent(db.state)
      modifies db
      ensures Valid()
      ensures db.state == CreateTableIfNotExists(old(db.state))
      ensures db.state.rows == old(db.state.rows)
      ensures WellFormed(old(db.state)) ==> WellFormed(db.state)
    {
      CreateTableProperties(db.state);
      db.state := CreateTableIfNotExists(db.state);
    }

    /**
     * log(record): `ts` stands for time.time(), `nonce` for the nonce the
     * cipher draws, and `serialise` for json.dumps. Exactly one row is added,
     * the earlier rows stay as they were, and its blob decrypts back to the
     * record's JSON text.
     */
    method Log(record: Pipeline.AnalysisResult, serialise: Pipeline.AnalysisResult -> string, ts: real, nonce: Bytes)
      requires Valid()
      requires |nonce| == NonceLength
      modifies db
      ensures Valid()
      ensures db.state == Insert(old(db.state), ts, crypto.Encrypt(serialise(record), nonce))
      ensures |db.state.rows| == |old(db.state.rows)| + 1
      ensures db.state.rows[..|old(db.state.rows)|] == old(db.state.rows)
      ensures db.state.rows[|old(db.state.rows)|].id == NextId(old(db.state.rows))
      ensures WellFormed(old(db.state)) ==>
        WellFormed(db.state) && db.state.rows[|old(db.state.rows)|].id == |old(db.state.rows)| + 1
      ensures Sound(crypto.prims) ==>
        crypto.Decrypt(db.state.rows[|old(db.state.rows)|].blob) == Success(serialise(record))
    {
      var blob := crypto.Encrypt(serialise(record), nonce);
      InsertAppendsOneRow(db.state, ts, blob);
      if Sound(crypto.prims) {
        crypto.DecryptEncrypt(serialise(record), nonce);
      }
      db.state := Insert(db.state, ts, blob);
    }
  }
}
