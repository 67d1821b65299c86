/** The key-unique entry store of scan-bcl (`DatabaseEntry` and `Database`).

    The store maps a member's DocId to its entry. The source declares the
    entry with an integer `Nesting` column, while the reporter writes entries
    carrying an api label and a severity; the model is therefore generic over
    the payload that follows the four identity columns. */
module Store {
  import opened Wrappers

  /** One stored member: the four identity columns and a payload. */
  datatype Entry<P> = Entry(docId: string, ns: string, typeName: string, member: string, payload: P)

  /** True when every value is stored under its own DocId. */
  predicate Keyed<P>(m: map<string, Entry<P>>)
  {
    forall k :: k in m ==> m[k].docId == k
  }

  /** The store: a dictionary whose values are keyed by their DocId. */
  type Database<P> = m: map<string, Entry<P>> | Keyed(m) witness map[]

  /** The exception `Dictionary.Add` raises on a key already present. */
  datatype Error = DuplicateKey(docId: string)

  /** The empty store a run starts from. */
  function Empty<P>(): (r: Database<P>)
    ensures |r| == 0
  {
    map[]
  }

  /** Key membership: what the reporter's `Contains` asks. Because every
      value sits under its own DocId, it holds exactly when some stored entry
      carries the DocId. */
  predicate Contains<P>(db: Database<P>, docId: string): (b: bool)
    ensures b <==> exists e :: e in Entries(db) && e.docId == docId
  {
    assert docId in db ==> db[docId] in Entries(db);
    docId in db
  }

  /** `Database.Add`: builds the entry from the arguments and inserts it under
      its DocId; a DocId already present raises and leaves the store as it was. */
  function Add<P>(db: Database<P>, docId: string, ns: string, typeName: string, member: string, payload: P)
    : (r: Result<Database<P>, Error>)
    ensures r.Success? <==> docId !in db
    ensures r.Failure? ==> r.error == DuplicateKey(docId)
    ensures r.Success? ==> r.value.Keys == db.Keys + {docId}
    ensures r.Success? ==> r.value[docId] == Entry(docId, ns, typeName, member, payload)
    ensures r.Success? ==> forall k :: k in db ==> r.value[k] == db[k]
  {
    if docId in db then
      Failure(DuplicateKey(docId))
    else
      Success(db[docId := Entry(docId, ns, typeName, member, payload)])
  }

  /** `Database.Remove`: drops the DocId if present, otherwise does nothing. */
  function Remove<P>(db: Database<P>, docId: string): (r: Database<P>)
    ensures r.Keys == db.Keys - {docId}
    ensures forall k :: k in r ==> r[k] == db[k]
    ensures docId !in db ==> r == db
  {
    db - {docId}
  }

  /** `Database.Entries`: the stored values, each of which is the entry
      found under its own DocId. */
  function Entries<P(==)>(db: Database<P>): (r: set<Entry<P>>)
    ensures forall k :: k in db ==> db[k] in r
    ensures forall e :: e in r ==> e.docId in db && db[e.docId] == e
  {
    db.Values
  }

  /** `Entries` yields exactly one value per key: no two keys share an entry. */
  lemma {:induction false} EntriesCount<P>(db: Database<P>)
    ensures |Entries(db)| == |db|
    decreases |db|
  {
    if |db| > 0 {
      var k :| k in db;
      var rest: Database<P> := Remove(db, k);
      assert |rest| == |db| - 1 by {
        assert rest.Keys == db.Keys - {k};
      }
      EntriesCount(rest);
      assert db[k] !in Entries(rest);
      assert Entries(db) == Entries(rest) + {db[k]} by {
        forall e | e in Entries(db) ensures e in Entries(rest) + {db[k]} {
          var j :| j in db && db[j] == e;
          if j != k { assert e == rest[j]; }
        }
      }
    }
  }
}
