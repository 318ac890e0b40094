/**
 * `Database` from src/database/sqlconn.py. `conn_params` is a class
 * attribute: one dictionary that every instance of every subclass reads and
 * writes. It is modelled as one `ConnParams` object that every `Database`
 * holds by reference.
 */
module SqlConn {
  import opened Wrappers

  /** The four keyword arguments `Database.__init__` looks up, in lookup order. */
  datatype Field = Host | User | Password | DatabaseName

  function KeyOf(f: Field): string
  {
    match f
    case Host => "host"
    case User => "user"
    case Password => "password"
    case DatabaseName => "database"
  }

  const Fields: seq<Field> := [Host, User, Password, DatabaseName]

  /** Keyword arguments: a name that was passed maps to None or to a value. */
  type Kwargs = map<string, Option<string>>

  /** The table after the writes and, when a lookup raised KeyError, the key that was missing. */
  datatype Merged = Merged(params: map<string, string>, missing: Option<string>)

  predicate DistinctKeys(fields: seq<Field>)
  {
    forall i, j | 0 <= i < j < |fields| :: KeyOf(fields[i]) != KeyOf(fields[j])
  }

  /** Whether `k` is the key of one of `fields`. */
  predicate KeyAmong(k: string, fields: seq<Field>)
  {
    exists f | f in fields :: KeyOf(f) == k
  }

  /** What the entry for `k` becomes: the passed value, or the old entry when None was passed. */
  predicate Written(k: string, before: map<string, string>, kwargs: Kwargs, after: map<string, string>)
    requires k in kwargs
  {
    match kwargs[k]
    case Some(v) => k in after && after[k] == v
    case None => (k in after <==> k in before) && (k in before ==> after[k] == before[k])
  }

  predicate Untouched(k: string, before: map<string, string>, after: map<string, string>)
  {
    (k in after <==> k in before) && (k in before ==> after[k] == before[k])
  }

  /** The guarded writes for `fields`, in order, stopping at the first key that was not passed. */
  function MergeFields(params: map<string, string>, kwargs: Kwargs, fields: seq<Field>): (r: Merged)
    ensures r.missing.None? <==> forall f | f in fields :: KeyOf(f) in kwargs
    ensures r.missing.Some? ==> r.missing.value !in kwargs && KeyAmong(r.missing.value, fields)
    decreases |fields|
  {
    if fields == [] then Merged(params, None)
    else
      var k := KeyOf(fields[0]);
      assert fields[0] in fields;
      if k !in kwargs then Merged(params, Some(k))
      else
        var next := match kwargs[k] case Some(v) => params[k := v] case None => params;
        assert forall f | f in fields :: f == fields[0] || f in fields[1..];
        MergeFields(next, kwargs, fields[1..])
  }

  /** What `Database.__init__(**kwargs)` does to `conn_params`. */
  function Merge(params: map<string, string>, kwargs: Kwargs): (r: Merged)
    ensures r.missing.None? <==> "host" in kwargs && "user" in kwargs && "password" in kwargs && "database" in kwargs
    ensures r.missing.Some? ==>
      r.missing.value !in kwargs && r.missing.value in {"host", "user", "password", "database"}
  {
    MergeFields(params, kwargs, Fields)
  }

  /* ---------- properties of the guarded writes, for any field order ---------- */

  /** A key that is not one of the looked-up names is never written. */
  lemma {:induction false} FieldsLeaveOthers(params: map<string, string>, kwargs: Kwargs, fields: seq<Field>, k: string)
    requires !KeyAmong(k, fields)
    ensures Untouched(k, params, MergeFields(params, kwargs, fields).params)
    decreases |fields|
  {
    if fields != [] && KeyOf(fields[0]) in kwargs {
      var k0 := KeyOf(fields[0]);
      var next := match kwargs[k0] case Some(v) => params[k0 := v] case None => params;
      assert !KeyAmong(k, fields[1..]) by {
        forall f | f in fields[1..] ensures KeyOf(f) != k { assert f in fields; }
      }
      FieldsLeaveOthers(next, kwargs, fields[1..], k);
    }
  }

  /** When every name was passed, the table holds the passed values and keeps the rest. */
  lemma {:induction false} FieldsAllPassed(params: map<string, string>, kwargs: Kwargs, fields: seq<Field>)
    requires DistinctKeys(fields)
    requires forall f | f in fields :: KeyOf(f) in kwargs
    ensures MergeFields(params, kwargs, fields).missing == None
    ensures forall f | f in fields :: Written(KeyOf(f), params, kwargs, MergeFields(params, kwargs, fields).params)
    decreases |fields|
  {
    if fields != [] {
      var k0 := KeyOf(fields[0]);
      assert fields[0] in fields;
      var next := match kwargs[k0] case Some(v) => params[k0 := v] case None => params;
      var after := MergeFields(params, kwargs, fields).params;
      assert after == MergeFields(next, kwargs, fields[1..]).params;
      assert DistinctKeys(fields[1..]) by {
        forall i, j | 0 <= i < j < |fields[1..]| ensures KeyOf(fields[1..][i]) != KeyOf(fields[1..][j]) {
          assert fields[1..][i] == fields[i + 1] && fields[1..][j] == fields[j + 1];
        }
      }
      assert forall f | f in fields[1..] :: f in fields;
      FieldsAllPassed(next, kwargs, fields[1..]);
      assert !KeyAmong(k0, fields[1..]) by {
        forall f | f in fields[1..] ensures KeyOf(f) != k0 {
          var j :| 0 <= j < |fields[1..]| && fields[1..][j] == f;
          assert fields[j + 1] == f;
        }
      }
      FieldsLeaveOthers(next, kwargs, fields[1..], k0);
      forall f | f in fields ensures Written(KeyOf(f), params, kwargs, after) {
        if f != fields[0] {
          assert f in fields[1..];
          var j :| 0 <= j < |fields| && fields[j] == f;
          assert j != 0;
          assert KeyOf(f) != k0;
        }
      }
    }
  }

  /**
   * When the name at position `i` is the first one not passed, the lookup
   * raises KeyError naming it, after the writes for the names before it.
   */
  lemma {:induction false} FieldsStopAt(params: map<string, string>, kwargs: Kwargs, fields: seq<Field>, i: nat)
    requires i < |fields|
    requires KeyOf(fields[i]) !in kwargs
    requires forall j | 0 <= j < i :: KeyOf(fields[j]) in kwargs
    ensures MergeFields(params, kwargs, fields)
         == Merged(MergeFields(params, kwargs, fields[..i]).params, Some(KeyOf(fields[i])))
    decreases i
  {
    if i > 0 {
      var k0 := KeyOf(fields[0]);
      var next := match kwargs[k0] case Some(v) => params[k0 := v] case None => params;
      assert fields[1..][..i - 1] == fields[..i][1..];
      FieldsStopAt(next, kwargs, fields[1..], i - 1);
    }
  }

  /* ---------- the same properties for `Database.__init__` ---------- */

  /** Only "host", "user", "password" and "database" are ever written; a port or any other argument is ignored. */
  lemma MergeLeavesOthers(params: map<string, string>, kwargs: Kwargs, k: string)
    requires k != "host" && k != "user" && k != "password" && k != "database"
    ensures Untouched(k, params, Merge(params, kwargs).params)
  {
    FieldsLeaveOthers(params, kwargs, Fields, k);
  }

  /** With all four names passed, each non-None value is written and each None keeps the old entry. */
  lemma MergeAllPassed(params: map<string, string>, kwargs: Kwargs)
    requires "host" in kwargs && "user" in kwargs && "password" in kwargs && "database" in kwargs
    ensures Merge(params, kwargs).missing == None
    ensures Written("host", params, kwargs, Merge(params, kwargs).params)
    ensures Written("user", params, kwargs, Merge(params, kwargs).params)
    ensures Written("password", params, kwargs, Merge(params, kwargs).params)
    ensures Written("database", params, kwargs, Merge(params, kwargs).params)
  {
    FieldsAllPassed(params, kwargs, Fields);
    assert Host in Fields && User in Fields && Password in Fields && DatabaseName in Fields;
  }

  /** A missing "password" raises after "host" and "user" were written; "password" and "database" stay as they were. */
  lemma MergeMissingPassword(params: map<string, string>, kwargs: Kwargs)
    requires "host" in kwargs && "user" in kwargs && "password" !in kwargs
    ensures Merge(params, kwargs).missing == Some("password")
    ensures Written("host", params, kwargs, Merge(params, kwargs).params)
    ensures Written("user", params, kwargs, Merge(params, kwargs).params)
    ensures Untouched("password", params, Merge(params, kwargs).params)
    ensures Untouched("database", params, Merge(params, kwargs).params)
  {
    FieldsStopAt(params, kwargs, Fields, 2);
    assert Fields[..2] == [Host, User];
    FieldsAllPassed(params, kwargs, [Host, User]);
    assert Host in [Host, User] && User in [Host, User];
    FieldsLeaveOthers(params, kwargs, [Host, User], "password");
    FieldsLeaveOthers(params, kwargs, [Host, User], "database");
  }

  /** A missing "host" raises before anything is written. */
  lemma MergeMissingHost(params: map<string, string>, kwargs: Kwargs)
    requires "host" !in kwargs
    ensures Merge(params, kwargs) == Merged(params, Some("host"))
  {
  }

  /**
   * Two constructions through the shared table: the later values win, and an
   * earlier value survives wherever the later one is None.
   */
  lemma MergeLaterWins(params: map<string, string>, first: Kwargs, second: Kwargs, k: string)
    requires forall f | f in Fields :: KeyOf(f) in first && KeyOf(f) in second
    requires k == "host" || k == "user" || k == "password" || k == "database"
    ensures var after := Merge(Merge(params, first).params, second).params;
      match second[k]
      case Some(v) => k in after && after[k] == v
      case None =>
        match first[k]
        case Some(v) => k in after && after[k] == v
        case None => Untouched(k, params, after)
  {
    var f :| f in Fields && KeyOf(f) == k;
    var mid := Merge(params, first).params;
    FieldsAllPassed(params, first, Fields);
    FieldsAllPassed(mid, second, Fields);
  }

  lemma WrittenTwice(k: string, params: map<string, string>, kwargs: Kwargs, once: map<string, string>, twice: map<string, string>)
    requires k in kwargs
    requires Written(k, params, kwargs, once) && Written(k, once, kwargs, twice)
    ensures Untouched(k, once, twice)
  {
  }

  lemma UntouchedEverywhere(once: map<string, string>, twice: map<string, string>)
    requires forall k :: Untouched(k, once, twice)
    ensures once == twice
  {
    assert once.Keys == twice.Keys by {
      forall k ensures k in once <==> k in twice { assert Untouched(k, once, twice); }
    }
    forall k | k in once ensures once[k] == twice[k] { assert Untouched(k, once, twice); }
  }

  /** Constructing again with the same arguments changes nothing. */
  lemma MergeIdempotent(params: map<string, string>, kwargs: Kwargs)
    requires forall f | f in Fields :: KeyOf(f) in kwargs
    ensures Merge(Merge(params, kwargs).params, kwargs) == Merge(params, kwargs)
  {
    var once := Merge(params, kwargs).params;
    var twice := Merge(once, kwargs).params;
    FieldsAllPassed(params, kwargs, Fields);
    FieldsAllPassed(once, kwargs, Fields);
    forall k ensures Untouched(k, once, twice) {
      if KeyAmong(k, Fields) {
        var f :| f in Fields && KeyOf(f) == k;
        WrittenTwice(k, params, kwargs, once, twice);
      } else {
        FieldsLeaveOthers(once, kwargs, Fields, k);
      }
    }
    UntouchedEverywhere(once, twice);
  }

  /* ---------- the shared table and the database classes ---------- */

  /** The dictionary `Database.conn_params`. */
  class ConnParams {
    var entries: map<string, string>

    /** `conn_params = {}` */
    constructor ()
      ensures entries == map[]
    {
      entries := map[];
    }

    /** The body of `Database.__init__`: four guarded writes, in order; a missing name stops it. */
    method Update(kwargs: Kwargs) returns (missing: Option<string>)
      modifies this
      ensures Merged(entries, missing) == Merge(old(entries), kwargs)
    {
      if "host" !in kwargs { return Some("host"); }
      if kwargs["host"].Some? { entries := entries["host" := kwargs["host"].value]; }
      if "user" !in kwargs { return Some("user"); }
      if kwargs["user"].Some? { entries := entries["user" := kwargs["user"].value]; }
      if "password" !in kwargs { return Some("password"); }
      if kwargs["password"].Some? { entries := entries["password" := kwargs["password"].value]; }
      if "database" !in kwargs { return Some("database"); }
      if kwargs["database"].Some? { entries := entries["database" := kwargs["database"].value]; }
      missing := None;
    }
  }

  /** The two concrete subclasses; `connection()` hands the table to their driver. */
  datatype Backend = PostgreSql | MySql

  class Database {
    const backend: Backend
    /** The class-level table, the same object for every instance. */
    const shared: ConnParams

    constructor Of(backend: Backend, shared: ConnParams)
      ensures this.backend == backend && this.shared == shared
    {
      this.backend := backend;
      this.shared := shared;
    }

    /**
     * `PostgreSqlDB(**kwargs)` or `MySqlDB(**kwargs)`: merge into the shared
     * table, then the instance; KeyError (Err) leaves the writes made so far.
     */
    static method New(backend: Backend, shared: ConnParams, kwargs: Kwargs) returns (r: Result<Database, string>)
      modifies shared
      ensures Merged(shared.entries, if r.Ok? then None else Some(r.error)) == Merge(old(shared.entries), kwargs)
      ensures r.Ok? ==> fresh(r.value) && r.value.backend == backend && r.value.shared == shared
    {
      var missing := shared.Update(kwargs);
      if missing.Some? {
        return Err(missing.value);
      }
      var db := new Database.Of(backend, shared);
      return Ok(db);
    }

    /** `connection()`: the keyword arguments the driver's `connect` receives, read at call time. */
    method Connection() returns (params: map<string, string>)
      ensures params == shared.entries
    {
      params := shared.entries;
    }
  }

  /** `DbFactory.get_database_connection(database)`. */
  method GetDatabaseConnection(database: Database) returns (params: map<string, string>)
    ensures params == database.shared.entries
  {
    params := database.Connection();
  }

  /**
   * A PostgreSQL and a MySQL database built one after the other: both
   * connections see the table as the second construction left it.
   */
  method ConstructBoth(shared: ConnParams, first: Kwargs, second: Kwargs)
    returns (pg: map<string, string>, my: map<string, string>)
    requires forall f | f in Fields :: KeyOf(f) in first && KeyOf(f) in second
    modifies shared
    ensures pg == my == Merge(Merge(old(shared.entries), first).params, second).params
  {
    FieldsAllPassed(shared.entries, first, Fields);
    var a := Database.New(PostgreSql, shared, first);
    FieldsAllPassed(shared.entries, second, Fields);
    var b := Database.New(MySql, shared, second);
    pg := GetDatabaseConnection(a.value);
    my := GetDatabaseConnection(b.value);
  }
}
