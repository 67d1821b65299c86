/** The file-to-file differencing of scan-bcl: `ImportCsv` toggles each row of
    a report into a store, `Scan` imports two reports into one fresh store, and
    `ExportCsv` writes the store's entries in the fixed export order. Rows are
    records; the CSV text encoding is not part of this model. */
module CsvDiff {
  import opened Wrappers
  import opened Store
  import opened ToggleSet
  import opened Ordering

  /** A report row: DocId, Namespace, Type, Member and the Nesting column. */
  type Row = Entry<int>

  /** The row-matching predicate of `ImportCsv`: equal on the four identity
      columns (the Nesting column is not compared). */
  predicate SameMember(x: Row, row: Row)
  {
    x.docId == row.docId && x.ns == row.ns && x.typeName == row.typeName && x.member == row.member
  }

  /** The stored entries that match a row: at most the one under its DocId. */
  lemma MatchesAtKey(db: Database<int>, row: Row)
    ensures (set x | x in Entries(db) && SameMember(x, row))
         == (if row.docId in db && SameMember(db[row.docId], row) then {db[row.docId]} else {})
  {
  }

  /** One row of `ImportCsv`: `Single` over the stored entries finds the
      matching entry, which is then removed by DocId; when there is no single
      match the row is added, which raises if its DocId is already stored
      with different identity columns. */
  function ImportRow(db: Database<int>, row: Row): (r: Result<Database<int>, Error>)
    ensures row.docId in db && SameMember(db[row.docId], row) ==>
      && r.Success?
      && r.value.Keys == db.Keys - {row.docId}
      && forall k :: k in r.value ==> r.value[k] == db[k]
    ensures row.docId !in db ==>
      && r.Success?
      && r.value.Keys == db.Keys + {row.docId}
      && r.value[row.docId] == row
      && forall k :: k in db ==> r.value[k] == db[k]
    ensures row.docId in db && !SameMember(db[row.docId], row) ==> r == Failure(DuplicateKey(row.docId))
  {
    var matches := set x | x in Entries(db) && SameMember(x, row);
    MatchesAtKey(db, row);
    if |matches| == 1 then
      Success(Remove(db, row.docId))
    else
      Add(db, row.docId, row.ns, row.typeName, row.member, row.payload)
  }

  /** `ImportCsv`: the rows of one report, first to last; the first raising
      row aborts the import. Only the DocIds of the report's rows are touched,
      and an exception names one of them. */
  function ImportCsv(db: Database<int>, rows: seq<Row>): (r: Result<Database<int>, Error>)
    ensures r.Success? ==> forall k :: k in db && !HasId(rows, k) ==> k in r.value && r.value[k] == db[k]
    ensures r.Success? ==> forall k :: k in r.value ==> k in db || HasId(rows, k)
    ensures r.Failure? ==> HasId(rows, r.error.docId)
    decreases |rows|
  {
    if |rows| == 0 then
      Success(db)
    else
      assert forall k :: HasId(rows[1..], k) ==> HasId(rows, k) by {
        forall k | HasId(rows[1..], k) ensures HasId(rows, k) {
          var i :| 0 <= i < |rows[1..]| && rows[1..][i].docId == k;
          assert rows[i + 1] == rows[1..][i];
        }
      }
      assert HasId(rows, rows[0].docId);
      match ImportRow(db, rows[0])
      case Failure(e) => Failure(e)
      case Success(next) => ImportCsv(next, rows[1..])
  }

  /** Every row whose DocId is stored agrees with the stored identity columns. */
  predicate Consistent(db: Database<int>, rows: seq<Row>)
  {
    forall i :: 0 <= i < |rows| && rows[i].docId in db ==> SameMember(db[rows[i].docId], rows[i])
  }

  /** When rows sharing a DocId agree on the identity columns, with each other
      and with the store, importing never raises and is the presence toggle
      of each row. */
  lemma {:induction false} ImportIsToggle(db: Database<int>, rows: seq<Row>)
    requires Agree(rows, rows) && Consistent(db, rows)
    ensures ImportCsv(db, rows) == Success(ToggleAll(db, rows))
    decreases |rows|
  {
    if |rows| > 0 {
      var row, rest := rows[0], rows[1..];
      var next := Toggle(db, row);
      assert ImportRow(db, row) == Success(next) by {
        assert row.docId in db ==> SameMember(db[row.docId], row);
      }
      assert Agree(rest, rest) && Consistent(next, rest) by {
        forall i, j | 0 <= i < |rest| && 0 <= j < |rest| && rest[i].docId == rest[j].docId
          ensures SameMember(rest[i], rest[j])
        {
          assert rest[i] == rows[i + 1] && rest[j] == rows[j + 1];
        }
        forall i | 0 <= i < |rest| && rest[i].docId in next ensures SameMember(next[rest[i].docId], rest[i]) {
          assert rest[i] == rows[i + 1];
          if rest[i].docId == row.docId {
            assert SameMember(rows[0], rows[i + 1]);
          }
        }
      }
      ImportIsToggle(next, rest);
    }
  }

  /** Distinct DocIds agree trivially. */
  lemma UniqueAgrees(rows: seq<Row>)
    requires UniqueIds(rows)
    ensures Agree(rows, rows)
  {
  }

  /** Importing a concatenation imports the first part, then the second into
      its result; a failure in the first part is the failure of the whole. */
  lemma {:induction false} ImportConcat(db: Database<int>, a: seq<Row>, b: seq<Row>)
    ensures ImportCsv(db, a + b)
         == match ImportCsv(db, a) { case Failure(e) => Failure(e) case Success(d) => ImportCsv(d, b) }
    decreases |a|
  {
    if |a| == 0 {
      assert a + b == b;
    } else {
      assert (a + b)[0] == a[0] && (a + b)[1..] == a[1..] + b;
      match ImportRow(db, a[0])
      case Failure(_) =>
      case Success(next) => ImportConcat(next, a[1..], b);
    }
  }

  /** Two stores that agree on every DocId except `k`. */
  ghost predicate SameOff(d1: Database<int>, d2: Database<int>, k: string)
  {
    && (forall j :: j != k ==> (j in d1 <==> j in d2))
    && (forall j :: j != k && j in d1 ==> d1[j] == d2[j])
  }

  /** Rows that never carry DocId `k` import in lockstep into two stores that
      differ only at `k`: both raise the same exception, or both succeed with
      stores that still differ only at `k`. */
  lemma {:induction false} ImportOff(d1: Database<int>, d2: Database<int>, rows: seq<Row>, k: string)
    requires SameOff(d1, d2, k) && !HasId(rows, k)
    ensures ImportCsv(d1, rows).Failure? <==> ImportCsv(d2, rows).Failure?
    ensures ImportCsv(d1, rows).Failure? ==> ImportCsv(d1, rows) == ImportCsv(d2, rows)
    ensures ImportCsv(d1, rows).Success? ==> SameOff(ImportCsv(d1, rows).value, ImportCsv(d2, rows).value, k)
    decreases |rows|
  {
    if |rows| > 0 {
      var row := rows[0];
      assert row.docId != k;
      var r1, r2 := ImportRow(d1, row), ImportRow(d2, row);
      assert r1.Failure? <==> r2.Failure?;
      if r1.Success? {
        assert SameOff(r1.value, r2.value, k);
        assert !HasId(rows[1..], k) by {
          forall i | 0 <= i < |rows[1..]| ensures rows[1..][i].docId != k {
            assert rows[1..][i] == rows[i + 1];
          }
        }
        ImportOff(r1.value, r2.value, rows[1..], k);
      }
    }
  }

  /** The second copy of a row undoes the first: after the first copy and a
      run without its DocId, importing the row again lands on the store the
      run alone reaches from the original store. */
  lemma SecondCopyUndoes(d: Database<int>, row: Row, e1: Database<int>, e2: Database<int>)
    requires row.docId in d ==> d[row.docId] == row
    requires SameOff(e1, e2, row.docId)
    requires row.docId in e1 <==> row.docId !in d
    requires row.docId in e1 ==> e1[row.docId] == row
    requires row.docId in e2 <==> row.docId in d
    requires row.docId in e2 ==> e2[row.docId] == d[row.docId]
    ensures ImportRow(e1, row) == Success(e2)
  {
    var k := row.docId;
    assert SameMember(row, row);
    var f := ImportRow(e1, row).value;
    assert f.Keys == e2.Keys;
    forall j | j in f ensures f[j] == e2[j] {
      if j == k {
        assert k in d && f[k] == row;
      }
    }
    assert f == e2;
  }

  /** With the DocId absent, or holding that very row, a row, a run that never
      carries its DocId, and the row again import like the run alone. */
  lemma {:induction false} CancelAround(d: Database<int>, row: Row, ys: seq<Row>, zs: seq<Row>)
    requires !HasId(ys, row.docId)
    requires row.docId in d ==> d[row.docId] == row
    ensures ImportCsv(d, [row] + ys + [row] + zs) == ImportCsv(d, ys + zs)
  {
    var k := row.docId;
    var d1 := ImportRow(d, row).value;
    assert SameMember(row, row);
    assert SameOff(d1, d, k);
    assert [row] + ys + [row] + zs == [row] + (ys + ([row] + zs));
    assert ImportCsv(d, [row] + (ys + ([row] + zs))) == ImportCsv(d1, ys + ([row] + zs));
    ImportConcat(d1, ys, [row] + zs);
    ImportConcat(d, ys, zs);
    ImportOff(d1, d, ys, k);
    if ImportCsv(d1, ys).Success? {
      var e1, e2 := ImportCsv(d1, ys).value, ImportCsv(d, ys).value;
      SecondCopyUndoes(d, row, e1, e2);
      assert ([row] + zs)[0] == row && ([row] + zs)[1..] == zs;
    }
  }

  /** A row repeated inside one report cancels itself out, provided no row
      before its second occurrence carries its DocId and the store holds
      either nothing or that very row under it. When some other row raises,
      both imports raise the same exception. */
  lemma {:induction false} DuplicateRowCancels(db: Database<int>, xs: seq<Row>, row: Row, ys: seq<Row>, zs: seq<Row>)
    requires !HasId(xs, row.docId) && !HasId(ys, row.docId)
    requires row.docId in db ==> db[row.docId] == row
    ensures ImportCsv(db, xs + [row] + ys + [row] + zs) == ImportCsv(db, xs + ys + zs)
  {
    var rest := [row] + ys + [row] + zs;
    assert xs + [row] + ys + [row] + zs == xs + rest;
    assert xs + ys + zs == xs + (ys + zs);
    ImportConcat(db, xs, rest);
    ImportConcat(db, xs, ys + zs);
    if ImportCsv(db, xs).Success? {
      CancelAround(ImportCsv(db, xs).value, row, ys, zs);
    }
  }

  /** Why `DuplicateRowCancels` asks that no row in between carries the DocId:
      a middle row with the same identity columns removes the first copy,
      whatever its Nesting, and the second copy is then added back. */
  lemma InterleavedRowReAdds(r: Row, s: Row)
    requires SameMember(r, s)
    ensures ImportCsv(Empty(), [r, s, r]) == Success(map[r.docId := r])
  {
    var one := ImportRow(Empty(), r).value;
    assert one == map[r.docId := r];
    var two := ImportRow(one, s).value;
    assert two == map[];
    var three := ImportRow(two, r).value;
    assert three == map[r.docId := r];
    assert [r][1..] == [];
    assert ImportCsv(two, [r]) == Success(three);
    assert [s, r][1..] == [r];
    assert ImportCsv(one, [s, r]) == Success(three);
    assert [r, s, r][1..] == [s, r];
  }

  /** `Scan`: both reports imported in order into one fresh store; when either
      path is missing the result is an empty store. */
  function Scan(three: Option<seq<Row>>, five: Option<seq<Row>>): (r: Result<Database<int>, Error>)
    ensures three.None? || five.None? ==> r == Success(Empty())
  {
    if three.Some? && five.Some? then
      match ImportCsv(Empty(), three.value)
      case Failure(e) => Failure(e)
      case Success(db) => ImportCsv(db, five.value)
    else
      Success(Empty())
  }

  /** Rows of the two reports that share a DocId agree on the identity columns. */
  predicate Agree(a: seq<Row>, b: seq<Row>)
  {
    forall i, j :: 0 <= i < |a| && 0 <= j < |b| && a[i].docId == b[j].docId ==> SameMember(a[i], b[j])
  }

  /** `Scan` of two agreeing reports with distinct DocIds is the symmetric
      difference of their row stores. */
  lemma {:induction false} ScanSymDiff(a: seq<Row>, b: seq<Row>)
    requires UniqueIds(a) && UniqueIds(b) && Agree(a, b)
    ensures Scan(Some(a), Some(b)) == Success(SymDiff(EntryMap(a), EntryMap(b)))
  {
    UniqueAgrees(a);
    UniqueAgrees(b);
    ImportIsToggle(Empty(), a);
    FromEmpty(a);
    var ma := EntryMap(a);
    assert Consistent(ma, b) by {
      forall j | 0 <= j < |b| && b[j].docId in ma ensures SameMember(ma[b[j].docId], b[j]) {
        var i :| 0 <= i < |a| && a[i] == ma[b[j].docId];
      }
    }
    ImportIsToggle(ma, b);
    ToggleAllIsSymDiff(ma, b);
  }

  /** For reports with distinct DocIds that agree on shared members, `Scan` is
      their symmetric difference: a DocId in both reports is excluded, and one
      in a single report is kept with that report's row. */
  lemma ScanIsSymmetricDifference(a: seq<Row>, b: seq<Row>)
    requires UniqueIds(a) && UniqueIds(b) && Agree(a, b)
    ensures Scan(Some(a), Some(b)).Success?
    ensures var r := Scan(Some(a), Some(b)).value;
      && (forall k :: k in r <==> HasId(a, k) != HasId(b, k))
      && (forall k :: k in r && HasId(a, k) ==> r[k] in a)
      && (forall k :: k in r && HasId(b, k) ==> r[k] in b)
  {
    ScanSymDiff(a, b);
    var ma, mb := EntryMap(a), EntryMap(b);
    var r := SymDiff(ma, mb);
    assert forall k :: k in r <==> (k in ma) != (k in mb);
    assert forall k :: k in r && k in ma ==> r[k] == ma[k];
    assert forall k :: k in r && k in mb ==> r[k] == mb[k];
  }

  /** `ExportCsv`: the stored entries, each once, in the export order. */
  method ExportCsv(db: Database<int>) returns (rows: seq<Row>)
    ensures Sorted(rows)
    ensures multiset(rows) == multiset(Entries(db))
    ensures |rows| == |db|
  {
    var pending := Entries(db);
    rows := [];
    while pending != {}
      invariant pending <= Entries(db)
      invariant Sorted(rows)
      invariant multiset(rows) + multiset(pending) == multiset(Entries(db))
      decreases |pending|
    {
      var e :| e in pending;
      rows := Insert(e, rows);
      assert multiset(pending) == multiset(pending - {e}) + multiset{e};
      pending := pending - {e};
    }
    EntriesCount(db);
    assert |rows| == |multiset(rows)| == |multiset(Entries(db))|;
  }

  /** Two exports of the same store are the same sequence of rows. */
  lemma ExportDeterministic(db: Database<int>, r1: seq<Row>, r2: seq<Row>)
    requires Sorted(r1) && multiset(r1) == multiset(Entries(db))
    requires Sorted(r2) && multiset(r2) == multiset(Entries(db))
    ensures r1 == r2
  {
    SortedUnique(r1, r2);
  }

  /** The rows of an export have distinct DocIds. */
  lemma ExportRowsUnique(db: Database<int>, rows: seq<Row>)
    requires multiset(rows) == multiset(Entries(db))
    ensures forall i :: 0 <= i < |rows| ==> rows[i] in Entries(db)
    ensures UniqueIds(rows)
  {
    forall i | 0 <= i < |rows| ensures rows[i] in Entries(db) {
      assert rows[i] in multiset(rows);
    }
    forall i, j | 0 <= i < j < |rows| ensures rows[i].docId != rows[j].docId {
      if rows[i].docId == rows[j].docId {
        assert rows[i] in multiset(rows) && rows[j] in multiset(rows);
        assert rows[i] == db[rows[i].docId] == rows[j];
        TwiceCounted(rows, i, j);
      }
    }
  }

  /** An element at two positions occurs at least twice. */
  lemma TwiceCounted(s: seq<Row>, i: int, j: int)
    requires 0 <= i < j < |s| && s[i] == s[j]
    ensures multiset(s)[s[i]] >= 2
  {
    assert s == s[..i] + [s[i]] + s[i + 1..j] + [s[j]] + s[j + 1..];
  }

  /** Two stores with the same keys and the same entries are equal. */
  lemma SameStore(m: Database<int>, db: Database<int>)
    requires forall k :: k in db ==> k in m
    requires forall k :: k in m ==> k in db && m[k] == db[k]
    ensures m == db
  {
    assert m.Keys == db.Keys;
  }

  /** Every stored entry listed in the rows puts its key in the rows' store. */
  lemma StoredKeysListed(db: Database<int>, rows: seq<Row>)
    requires forall k :: k in db ==> db[k] in rows
    ensures forall k :: k in db ==> k in EntryMap(rows)
  {
    forall k | k in db ensures HasId(rows, k) {
      var i :| 0 <= i < |rows| && rows[i] == db[k];
    }
  }

  /** Rows drawn from the store's entries build a store that agrees with it. */
  lemma ListedEntriesStored(db: Database<int>, rows: seq<Row>)
    requires forall i :: 0 <= i < |rows| ==> rows[i] in Entries(db)
    ensures forall k :: k in EntryMap(rows) ==> k in db && EntryMap(rows)[k] == db[k]
  {
    var m := EntryMap(rows);
    forall k | k in m ensures k in db && m[k] == db[k] {
      var i :| 0 <= i < |rows| && rows[i] == m[k];
      assert rows[i] in db.Values;
      var j :| j in db && db[j] == rows[i];
    }
  }

  /** Importing an export into an empty store reproduces the store. */
  lemma ExportImportRoundTrip(db: Database<int>, rows: seq<Row>)
    requires multiset(rows) == multiset(Entries(db))
    ensures ImportCsv(Empty(), rows) == Success(db)
  {
    ExportRowsUnique(db, rows);
    UniqueAgrees(rows);
    ImportIsToggle(Empty(), rows);
    FromEmpty(rows);
    forall k | k in db ensures db[k] in rows {
      assert db[k] in multiset(rows);
    }
    StoredKeysListed(db, rows);
    ListedEntriesStored(db, rows);
    SameStore(EntryMap(rows), db);
  }
}
