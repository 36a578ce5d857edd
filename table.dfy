/** An IndexedDB object store as Dexie uses it in `src/db.js`: a sequence of
    records kept in ascending order of their primary key, read through an index
    (rows with an equal index value come in primary-key order), written with `add`
    (which never overwrites) and `update` (which merges changes into one row).
    Stores declared `++id` generate keys 1, 2, 3, ... */
module Table {
  import opened Wrappers
  import opened JsValue

  /** The key types the application stores: numbers and strings. Every number
      sorts before every string. */
  datatype Key = NumKey(n: int) | StrKey(s: string)

  datatype DbError =
    /** `add` of a key that is already present */
    | ConstraintError
    /** a primary-key value that is not a valid key */
    | DataError
    /** an `update` whose changes would move the row to another primary key;
        Dexie would re-key the row, which the model refuses instead */
    | PrimaryKeyChange
    /** the storage layer rejected the request (quota, a closed database, ...) */
    | StorageFailure

  function AsKey(v: Value): (k: Option<Key>)
    ensures k.Some? <==> v.Num? || v.Str?
  {
    match v
    case Num(n) => Some(NumKey(n))
    case Str(s) => Some(StrKey(s))
    case _ => None
  }

  /** String comparison by character code, as IndexedDB and `<` compare strings. */
  predicate StrLess(a: string, b: string)
    decreases |a|
  {
    if |b| == 0 then false
    else if |a| == 0 then true
    else if a[0] != b[0] then a[0] < b[0]
    else StrLess(a[1..], b[1..])
  }

  predicate KeyLess(a: Key, b: Key)
  {
    match (a, b)
    case (NumKey(x), NumKey(y)) => x < y
    case (NumKey(_), StrKey(_)) => true
    case (StrKey(_), NumKey(_)) => false
    case (StrKey(x), StrKey(y)) => StrLess(x, y)
  }

  lemma {:induction false} StrLessIrreflexive(a: string)
    ensures !StrLess(a, a)
    decreases |a|
  {
    if |a| > 0 {
      StrLessIrreflexive(a[1..]);
    }
  }

  lemma {:induction false} StrLessTransitive(a: string, b: string, c: string)
    requires StrLess(a, b) && StrLess(b, c)
    ensures StrLess(a, c)
    decreases |a|
  {
    if |a| > 0 && a[0] == b[0] && b[0] == c[0] {
      StrLessTransitive(a[1..], b[1..], c[1..]);
    }
  }

  lemma {:induction false} StrLessTotal(a: string, b: string)
    ensures a == b || StrLess(a, b) || StrLess(b, a)
    decreases |a|
  {
    if |a| > 0 && |b| > 0 && a[0] == b[0] {
      StrLessTotal(a[1..], b[1..]);
      if a[1..] == b[1..] {
        assert a == [a[0]] + a[1..] && b == [b[0]] + b[1..];
      }
    }
  }

  /** `KeyLess` is a strict total order. */
  lemma KeyLessIsStrictTotalOrder(a: Key, b: Key, c: Key)
    ensures !KeyLess(a, a)
    ensures KeyLess(a, b) && KeyLess(b, c) ==> KeyLess(a, c)
    ensures a == b || KeyLess(a, b) || KeyLess(b, a)
  {
    if a.StrKey? {
      StrLessIrreflexive(a.s);
      if b.StrKey? {
        StrLessTotal(a.s, b.s);
        if c.StrKey? && KeyLess(a, b) && KeyLess(b, c) {
          StrLessTransitive(a.s, b.s, c.s);
        }
      }
    }
  }

  function PrimaryKey(r: Record, keyPath: string): Option<Key>
  {
    AsKey(Get(r, keyPath))
  }

  /** Every row has a valid primary key, and keys strictly increase. */
  ghost predicate Ordered(rows: seq<Record>, keyPath: string)
  {
    && (forall i :: 0 <= i < |rows| ==> PrimaryKey(rows[i], keyPath).Some?)
    && (forall i, j :: 0 <= i < j < |rows| ==>
          KeyLess(PrimaryKey(rows[i], keyPath).value, PrimaryKey(rows[j], keyPath).value))
  }

  predicate HasKey(rows: seq<Record>, keyPath: string, k: Key)
  {
    exists i :: 0 <= i < |rows| && PrimaryKey(rows[i], keyPath) == Some(k)
  }

  /** The position `k` takes: the number of leading rows whose key is smaller. */
  function InsertionPoint(rows: seq<Record>, keyPath: string, k: Key): (p: nat)
    ensures p <= |rows|
    ensures forall i :: 0 <= i < p ==>
      PrimaryKey(rows[i], keyPath).Some? && KeyLess(PrimaryKey(rows[i], keyPath).value, k)
    ensures p < |rows| ==>
      !(PrimaryKey(rows[p], keyPath).Some? && KeyLess(PrimaryKey(rows[p], keyPath).value, k))
  {
    if rows == [] then 0
    else if PrimaryKey(rows[0], keyPath).Some? && KeyLess(PrimaryKey(rows[0], keyPath).value, k)
    then 1 + InsertionPoint(rows[1..], keyPath, k)
    else 0
  }

  /** `rows` with `row` placed at the position of its key. */
  function InsertSorted(rows: seq<Record>, keyPath: string, row: Record): seq<Record>
    requires PrimaryKey(row, keyPath).Some?
  {
    var p := InsertionPoint(rows, keyPath, PrimaryKey(row, keyPath).value);
    rows[..p] + [row] + rows[p..]
  }

  /** Placing a row whose key is new keeps the rows ordered. */
  lemma InsertSortedOrdered(rows: seq<Record>, keyPath: string, row: Record)
    requires Ordered(rows, keyPath)
    requires PrimaryKey(row, keyPath).Some?
    requires !HasKey(rows, keyPath, PrimaryKey(row, keyPath).value)
    ensures Ordered(InsertSorted(rows, keyPath, row), keyPath)
  {
    var k := PrimaryKey(row, keyPath).value;
    var p := InsertionPoint(rows, keyPath, k);
    var r := InsertSorted(rows, keyPath, row);
    forall j | p < j < |r|
      ensures KeyLess(k, PrimaryKey(r[j], keyPath).value)
    {
      var kj := PrimaryKey(rows[j - 1], keyPath).value;
      var kp := PrimaryKey(rows[p], keyPath).value;
      assert r[j] == rows[j - 1];
      KeyLessIsStrictTotalOrder(kp, k, kj);
      KeyLessIsStrictTotalOrder(k, kp, kj);
      assert kp != k;
    }
    forall i, j | 0 <= i < j < |r|
      ensures KeyLess(PrimaryKey(r[i], keyPath).value, PrimaryKey(r[j], keyPath).value)
    {
      if i < p && j == p {
      } else if i < p && j > p {
        assert r[j] == rows[j - 1];
        KeyLessIsStrictTotalOrder(PrimaryKey(r[i], keyPath).value, k, PrimaryKey(r[j], keyPath).value);
      } else if i > p {
        assert r[i] == rows[i - 1] && r[j] == rows[j - 1];
      } else if i < p {
        assert r[i] == rows[i] && r[j] == rows[j];
      }
    }
  }

  /** The rows whose `field` holds `v`, in stored (primary-key) order: what
      `where(field).equals(v)` yields. */
  function WithField(rows: seq<Record>, field: string, v: Value): (r: seq<Record>)
    ensures |r| <= |rows|
    ensures forall x :: x in r <==> x in rows && Get(x, field) == v
  {
    if rows == [] then []
    else if Get(rows[0], field) == v then [rows[0]] + WithField(rows[1..], field, v)
    else WithField(rows[1..], field, v)
  }

  /** A subsequence of ordered rows is ordered. */
  lemma {:induction false} WithFieldOrdered(rows: seq<Record>, keyPath: string, field: string, v: Value)
    requires Ordered(rows, keyPath)
    ensures Ordered(WithField(rows, field, v), keyPath)
  {
    if rows != [] {
      var rest := rows[1..];
      assert Ordered(rest, keyPath) by {
        forall i, j | 0 <= i < j < |rest| ensures
          KeyLess(PrimaryKey(rest[i], keyPath).value, PrimaryKey(rest[j], keyPath).value)
        {
          assert rest[i] == rows[i + 1] && rest[j] == rows[j + 1];
        }
      }
      WithFieldOrdered(rest, keyPath, field, v);
      if Get(rows[0], field) == v {
        var r := WithField(rows, field, v);
        var t := WithField(rest, field, v);
        assert r == [rows[0]] + t;
        forall j | 0 < j < |r|
          ensures KeyLess(PrimaryKey(r[0], keyPath).value, PrimaryKey(r[j], keyPath).value)
        {
          assert r[j] == t[j - 1] && r[j] in rest;
          var m :| 0 <= m < |rest| && rest[m] == r[j];
          assert rows[m + 1] == r[j];
        }
      }
    }
  }

  /** `.first()`: the matching row with the smallest primary key. */
  function First(rows: seq<Record>): Option<Record>
  {
    if rows == [] then None else Some(rows[0])
  }

  /** `.last()`: the matching row with the greatest primary key. */
  function Last(rows: seq<Record>): Option<Record>
  {
    if rows == [] then None else Some(rows[|rows| - 1])
  }

  /** `.reverse()` */
  function Reverse(rows: seq<Record>): (r: seq<Record>)
    ensures |r| == |rows|
    ensures forall i :: 0 <= i < |rows| ==> r[i] == rows[|rows| - 1 - i]
  {
    if rows == [] then [] else Reverse(rows[1..]) + [rows[0]]
  }

  /** `.limit(n)` */
  function Limit(rows: seq<Record>, n: nat): (r: seq<Record>)
    ensures |r| == if n < |rows| then n else |rows|
    ensures r == rows[..|r|]
  {
    if n < |rows| then rows[..n] else rows
  }

  /** `update`'s merge (Dexie's `modify` with an object of changes): each changed
      key takes its new value, and a change to `undefined` deletes the key. */
  function Merge(row: Record, changes: Record): (r: Record)
    ensures forall k :: k in changes && changes[k] != Undefined ==> k in r && r[k] == changes[k]
    ensures forall k :: k in changes && changes[k] == Undefined ==> k !in r
    ensures forall k :: k !in changes ==> (k in r <==> k in row) && (k in row ==> r[k] == row[k])
  {
    map k | k in row.Keys + changes.Keys && !(k in changes && changes[k] == Undefined)
      :: if k in changes then changes[k] else row[k]
  }

  /** An object store: its rows, its key path, and for `++` stores the next key
      the generator hands out. */
  datatype Store = Store(rows: seq<Record>, keyPath: string, autoIncrement: bool, next: int)

  /** Rows are ordered by key, and a generator is ahead of every numeric key. */
  ghost predicate Valid(s: Store)
  {
    && Ordered(s.rows, s.keyPath)
    && s.next >= 1
    && (s.autoIncrement ==> forall i :: 0 <= i < |s.rows| && PrimaryKey(s.rows[i], s.keyPath).value.NumKey? ==>
          PrimaryKey(s.rows[i], s.keyPath).value.n < s.next)
  }

  function Empty(keyPath: string, autoIncrement: bool): (s: Store)
    ensures Valid(s) && s.rows == []
  {
    Store([], keyPath, autoIncrement, 1)
  }

  /** The key `add(row)` stores `row` under: a generated one when the store is
      `++` and the row has no key, otherwise the row's own key. */
  function AddKey(s: Store, row: Record): Result<Key, DbError>
  {
    if s.autoIncrement && Get(row, s.keyPath) == Undefined then Ok(NumKey(s.next))
    else
      match PrimaryKey(row, s.keyPath)
      case None => Err(DataError)
      case Some(k) => if HasKey(s.rows, s.keyPath, k) then Err(ConstraintError) else Ok(k)
  }

  function KeyValue(k: Key): Value
  {
    match k
    case NumKey(n) => Num(n)
    case StrKey(t) => Str(t)
  }

  /** `add(row)`: inserts the row (with a generated key written into it) and
      returns its key; an existing key is a ConstraintError and nothing changes. */
  function Add(s: Store, row: Record): (r: Result<(Store, Key), DbError>)
    ensures r.Ok? <==> AddKey(s, row).Ok?
    ensures r.Ok? ==>
      r.value.1 == AddKey(s, row).value && r.value.0.keyPath == s.keyPath && r.value.0.autoIncrement == s.autoIncrement
    ensures r.Err? ==> r.error == AddKey(s, row).error
  {
    match AddKey(s, row)
    case Err(e) => Err(e)
    case Ok(k) =>
      var stored := row[s.keyPath := KeyValue(k)];
      var next := if s.autoIncrement && k.NumKey? && k.n >= s.next then k.n + 1 else s.next;
      Ok((Store(InsertSorted(s.rows, s.keyPath, stored), s.keyPath, s.autoIncrement, next), k))
  }

  /** The added row is stored under its key, every earlier row stays, the key was
      not present before, and the store stays valid. */
  lemma AddSpec(s: Store, row: Record)
    requires Valid(s)
    requires Add(s, row).Ok?
    ensures var (t, k) := Add(s, row).value;
      && Valid(t)
      && !HasKey(s.rows, s.keyPath, k)
      && |t.rows| == |s.rows| + 1
      && (forall x :: x in t.rows <==> x in s.rows || x == row[s.keyPath := KeyValue(k)])
      && (!s.autoIncrement || Get(row, s.keyPath) != Undefined ==> row[s.keyPath := KeyValue(k)] == row)
  {
    var k := AddKey(s, row).value;
    var stored := row[s.keyPath := KeyValue(k)];
    assert PrimaryKey(stored, s.keyPath) == Some(k);
    if s.autoIncrement && Get(row, s.keyPath) == Undefined {
      assert !HasKey(s.rows, s.keyPath, k);
    } else {
      assert Get(row, s.keyPath) == KeyValue(k);
      assert stored == row;
    }
    InsertSortedOrdered(s.rows, s.keyPath, stored);
    var t := Add(s, row).value.0;
    var p := InsertionPoint(s.rows, s.keyPath, k);
    assert t.rows == s.rows[..p] + [stored] + s.rows[p..];
    forall x ensures x in t.rows <==> x in s.rows || x == stored {
      if x in s.rows {
        var i :| 0 <= i < |s.rows| && s.rows[i] == x;
        if i < p { assert t.rows[i] == x; } else { assert t.rows[i + 1] == x; }
      }
    }
    forall i | 0 <= i < |t.rows| && PrimaryKey(t.rows[i], t.keyPath).value.NumKey? && t.autoIncrement
      ensures PrimaryKey(t.rows[i], t.keyPath).value.n < t.next
    {
      if t.rows[i] != stored {
        assert t.rows[i] in s.rows;
        var m :| 0 <= m < |s.rows| && s.rows[m] == t.rows[i];
      }
    }
  }

  /** The index of the row stored under key `k`, if any. */
  function IndexOf(rows: seq<Record>, keyPath: string, k: Key): (r: Option<nat>)
    ensures r.Some? ==> r.value < |rows| && PrimaryKey(rows[r.value], keyPath) == Some(k)
    ensures r.None? <==> !HasKey(rows, keyPath, k)
  {
    if rows == [] then None
    else if PrimaryKey(rows[0], keyPath) == Some(k) then Some(0)
    else match IndexOf(rows[1..], keyPath, k)
      case None => None
      case Some(i) => Some(i + 1)
  }

  /** `update(k, changes)`: merges the changes into the row stored under `k` and
      returns the number of rows changed (0 when there is none). */
  function Update(s: Store, k: Key, changes: Record): (r: Result<(Store, nat), DbError>)
    ensures r.Ok? && IndexOf(s.rows, s.keyPath, k).None? ==> r.value == (s, 0)
    ensures r.Err? <==>
      IndexOf(s.rows, s.keyPath, k).Some? &&
      PrimaryKey(Merge(s.rows[IndexOf(s.rows, s.keyPath, k).value], changes), s.keyPath) != Some(k)
  {
    match IndexOf(s.rows, s.keyPath, k)
    case None => Ok((s, 0))
    case Some(i) =>
      var merged := Merge(s.rows[i], changes);
      if PrimaryKey(merged, s.keyPath) != Some(k) then Err(PrimaryKeyChange)
      else Ok((s.(rows := s.rows[i := merged]), 1))
  }

  /** A successful update changes exactly the row under `k`, to the merge of its
      old value and the changes, and keeps the store valid. */
  lemma UpdateSpec(s: Store, k: Key, changes: Record)
    requires Valid(s)
    requires Update(s, k, changes).Ok?
    ensures var t := Update(s, k, changes).value.0;
      && Valid(t)
      && t.keyPath == s.keyPath && t.autoIncrement == s.autoIncrement && t.next == s.next
      && |t.rows| == |s.rows|
      && (forall i :: 0 <= i < |s.rows| && PrimaryKey(s.rows[i], s.keyPath) != Some(k) ==> t.rows[i] == s.rows[i])
      && (forall i :: 0 <= i < |s.rows| && PrimaryKey(s.rows[i], s.keyPath) == Some(k) ==>
            t.rows[i] == Merge(s.rows[i], changes))
  {
    match IndexOf(s.rows, s.keyPath, k)
    case None =>
    case Some(i) =>
      forall j | 0 <= j < |s.rows| && PrimaryKey(s.rows[j], s.keyPath) == Some(k) ensures j == i {
        if j < i {
          KeyLessIsStrictTotalOrder(k, k, k);
        } else if j > i {
          KeyLessIsStrictTotalOrder(k, k, k);
        }
      }
  }
}
