/**
 * Setting the database name in a PostgreSQL key=value connection string.
 */
module ConnString {
  import opened GoStrings

  const DbNameKey := "dbname="

  /** The index of the first field that starts with `dbname=` */
  function FirstDbName(parts: seq<string>): (r: Option<nat>)
    ensures r.Some? ==>
      r.value < |parts| && HasPrefix(parts[r.value], DbNameKey) &&
      (forall j :: 0 <= j < r.value ==> !HasPrefix(parts[j], DbNameKey))
    ensures r.None? ==> forall j :: 0 <= j < |parts| ==> !HasPrefix(parts[j], DbNameKey)
  {
    if parts == [] then None
    else if HasPrefix(parts[0], DbNameKey) then Some(0)
    else match FirstDbName(parts[1..])
      case None => None
      case Some(k) => Some(k + 1)
  }

  /**
   * The fields with the first `dbname=` field replaced, or `dbname=` appended
   * when there is none; no other field changes
   */
  function SetDbName(parts: seq<string>, newDBName: string): (r: seq<string>)
    ensures FirstDbName(parts).Some? ==>
      var i := FirstDbName(parts).value;
      |r| == |parts| && r[i] == DbNameKey + newDBName &&
      (forall j :: 0 <= j < |parts| && j != i ==> r[j] == parts[j]) &&
      (forall j :: 0 <= j < i ==> !HasPrefix(parts[j], DbNameKey))
    ensures FirstDbName(parts).None? ==>
      r == parts + [DbNameKey + newDBName] && forall j :: 0 <= j < |parts| ==> !HasPrefix(parts[j], DbNameKey)
  {
    match FirstDbName(parts)
    case Some(i) => parts[i := DbNameKey + newDBName]
    case None => parts + [DbNameKey + newDBName]
  }

  predicate IsPostgres(dbType: string) {
    dbType == "postgres" || dbType == "postgresql"
  }

  /** updateConnectionStringDBName: "" for an unsupported database type */
  function UpdateConnectionStringDBName(connStr: string, newDBName: string, dbType: string): string {
    if IsPostgres(dbType) then Join(SetDbName(Fields(connStr), newDBName), " ") else ""
  }

  /** A `dbname=` field is found again where it was written */
  lemma SetDbNameFound(parts: seq<string>, newDBName: string)
    ensures var r := SetDbName(parts, newDBName);
      FirstDbName(r).Some? && r[FirstDbName(r).value] == DbNameKey + newDBName
  {
    var r := SetDbName(parts, newDBName);
    var i := if FirstDbName(parts).Some? then FirstDbName(parts).value else |parts|;
    assert HasPrefix(r[i], DbNameKey);
    FirstDbNameAt(r, i);
  }

  /** `i` is the first `dbname=` field when none comes before it */
  lemma FirstDbNameAt(parts: seq<string>, i: nat)
    requires i < |parts| && HasPrefix(parts[i], DbNameKey)
    requires forall j :: 0 <= j < i ==> !HasPrefix(parts[j], DbNameKey)
    ensures FirstDbName(parts) == Some(i)
  {
  }

  /** Setting the name twice is setting it once to the second name */
  lemma SetDbNameTwice(parts: seq<string>, n1: string, n2: string)
    ensures SetDbName(SetDbName(parts, n1), n2) == SetDbName(parts, n2)
  {
    var r := SetDbName(parts, n1);
    var i := if FirstDbName(parts).Some? then FirstDbName(parts).value else |parts|;
    assert HasPrefix(r[i], DbNameKey);
    FirstDbNameAt(r, i);
    if FirstDbName(parts).None? {
      assert r[i := DbNameKey + n2] == parts + [DbNameKey + n2];
    }
  }

  /** Every field of the result is a field when the new name holds no white space */
  lemma SetDbNameFields(parts: seq<string>, newDBName: string)
    requires forall i :: 0 <= i < |parts| ==> IsField(parts[i])
    requires forall i :: 0 <= i < |newDBName| ==> !IsSpace(newDBName[i])
    ensures forall i :: 0 <= i < |SetDbName(parts, newDBName)| ==> IsField(SetDbName(parts, newDBName)[i])
  {
    var w := DbNameKey + newDBName;
    assert IsField(w) by {
      assert forall i :: 0 <= i < |DbNameKey| ==> w[i] == DbNameKey[i];
      assert forall i :: |DbNameKey| <= i < |w| ==> w[i] == newDBName[i - |DbNameKey|];
    }
  }

  /** Split again, the output holds the input's fields with the name set */
  lemma UpdatedFields(connStr: string, newDBName: string, dbType: string)
    requires IsPostgres(dbType) && forall i :: 0 <= i < |newDBName| ==> !IsSpace(newDBName[i])
    ensures Fields(UpdateConnectionStringDBName(connStr, newDBName, dbType)) == SetDbName(Fields(connStr), newDBName)
  {
    SetDbNameFields(Fields(connStr), newDBName);
    FieldsOfJoin(SetDbName(Fields(connStr), newDBName));
  }

  /** Updating twice is updating once with the second name */
  lemma UpdateTwice(connStr: string, n1: string, n2: string, dbType: string)
    requires IsPostgres(dbType)
    requires forall i :: 0 <= i < |n1| ==> !IsSpace(n1[i])
    ensures var once := UpdateConnectionStringDBName(connStr, n1, dbType);
      UpdateConnectionStringDBName(once, n2, dbType) == UpdateConnectionStringDBName(connStr, n2, dbType)
  {
    UpdatedFields(connStr, n1, dbType);
    SetDbNameTwice(Fields(connStr), n1, n2);
  }

  /** The output is empty exactly for an unsupported database type */
  lemma UnsupportedIffEmpty(connStr: string, newDBName: string, dbType: string)
    ensures UpdateConnectionStringDBName(connStr, newDBName, dbType) == "" <==> !IsPostgres(dbType)
  {
    if IsPostgres(dbType) {
      var r := SetDbName(Fields(connStr), newDBName);
      SetDbNameFound(Fields(connStr), newDBName);
      JoinNonEmpty(r, FirstDbName(r).value, " ");
    }
  }

  lemma {:induction false} JoinNonEmpty(parts: seq<string>, k: nat, sep: string)
    requires k < |parts| && parts[k] != ""
    ensures Join(parts, sep) != ""
    decreases |parts|
  {
    if k > 0 && |parts| > 1 {
      JoinNonEmpty(parts[1..], k - 1, sep);
    }
  }

  /** The loop of updateConnectionStringDBName, replacing the first match and breaking */
  method UpdateDbName(connStr: string, newDBName: string, dbType: string) returns (r: string)
    ensures r == UpdateConnectionStringDBName(connStr, newDBName, dbType)
  {
    if dbType == "postgres" || dbType == "postgresql" {
      var fields := Fields(connStr);
      var parts := fields;
      var found := false;
      var i := 0;
      while i < |parts|
        invariant 0 <= i <= |parts| && parts == fields && !found
        invariant forall j :: 0 <= j < i ==> !HasPrefix(fields[j], DbNameKey)
      {
        if HasPrefix(parts[i], DbNameKey) {
          FirstDbNameAt(fields, i);
          parts := parts[i := DbNameKey + newDBName];
          found := true;
          break;
        }
        i := i + 1;
      }
      if !found {
        parts := parts + [DbNameKey + newDBName];
      }
      return Join(parts, " ");
    }
    return "";
  }
}
