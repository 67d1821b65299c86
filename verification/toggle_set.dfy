/** The presence-toggle protocol shared by the reporter and the CSV import:
    a member whose DocId is present is removed, an absent one is added.
    Folding it over a sequence of members with distinct DocIds yields the
    symmetric difference of the starting store and those members. */
module ToggleSet {
  import opened Store

  /** One toggle step on a whole entry. */
  function Toggle<P>(db: Database<P>, e: Entry<P>): (r: Database<P>)
    ensures e.docId in r <==> e.docId !in db
    ensures e.docId in r ==> r[e.docId] == e
    ensures forall k :: k != e.docId ==> (k in r <==> k in db)
    ensures forall k :: k != e.docId && k in r ==> r[k] == db[k]
  {
    if Contains(db, e.docId) then
      Remove(db, e.docId)
    else
      Add(db, e.docId, e.ns, e.typeName, e.member, e.payload).value
  }

  /** Toggling a sequence of entries, first to last. */
  function ToggleAll<P>(db: Database<P>, es: seq<Entry<P>>): Database<P>
    decreases |es|
  {
    if |es| == 0 then db else ToggleAll(Toggle(db, es[0]), es[1..])
  }

  /** No DocId occurs twice in the sequence. */
  predicate UniqueIds<P>(es: seq<Entry<P>>)
  {
    forall i, j :: 0 <= i < j < |es| ==> es[i].docId != es[j].docId
  }

  /** True when some entry of the sequence carries the DocId. */
  predicate HasId<P>(es: seq<Entry<P>>, docId: string)
  {
    exists i :: 0 <= i < |es| && es[i].docId == docId
  }

  /** The store holding the entries of a sequence, each under its DocId
      (the first occurrence wins when a DocId repeats). */
  function EntryMap<P>(es: seq<Entry<P>>): (r: Database<P>)
    ensures forall k :: k in r <==> HasId(es, k)
    ensures forall k :: k in r ==> r[k] in es
    decreases |es|
  {
    if |es| == 0 then
      map[]
    else
      var r := EntryMap(es[1..])[es[0].docId := es[0]];
      assert forall k :: HasId(es, k) ==> k == es[0].docId || HasId(es[1..], k) by {
        forall k | HasId(es, k) && k != es[0].docId ensures HasId(es[1..], k) {
          var i :| 0 <= i < |es| && es[i].docId == k;
          assert es[1..][i - 1] == es[i];
        }
      }
      assert forall k :: HasId(es[1..], k) ==> HasId(es, k) by {
        forall k | HasId(es[1..], k) ensures HasId(es, k) {
          var i :| 0 <= i < |es[1..]| && es[1..][i].docId == k;
          assert es[i + 1] == es[1..][i];
        }
      }
      r
  }

  /** The symmetric difference of two stores: the keys in exactly one of them,
      each with the entry of the store that holds it. */
  function SymDiff<P>(a: Database<P>, b: Database<P>): Database<P>
  {
    map k | k in a.Keys + b.Keys && (k in a) != (k in b) :: if k in a then a[k] else b[k]
  }

  /** With distinct DocIds, toggling each entry once is the symmetric
      difference of the starting store and the entries' store. */
  lemma {:induction false} ToggleAllIsSymDiff<P>(db: Database<P>, es: seq<Entry<P>>)
    requires UniqueIds(es)
    ensures ToggleAll(db, es) == SymDiff(db, EntryMap(es))
    decreases |es|
  {
    if |es| == 0 {
      assert SymDiff(db, EntryMap(es)) == db;
    } else {
      var e, rest := es[0], es[1..];
      var t := Toggle(db, e);
      ToggleAllIsSymDiff(t, rest);
      var mr, me := EntryMap(rest), EntryMap(es);
      assert e.docId !in mr;
      assert me == mr[e.docId := e];
      SymDiffStep(db, e, mr);
    }
  }

  /** One toggle step moves an entry from the right operand of the symmetric
      difference into the store, when the right operand lacks its DocId. */
  lemma SymDiffStep<P>(db: Database<P>, e: Entry<P>, m: Database<P>)
    requires e.docId !in m
    ensures SymDiff(Toggle(db, e), m) == SymDiff(db, m[e.docId := e])
  {
    var lhs, rhs := SymDiff(Toggle(db, e), m), SymDiff(db, m[e.docId := e]);
    assert lhs.Keys == rhs.Keys;
    forall k | k in lhs ensures lhs[k] == rhs[k] {
      if k == e.docId {
        assert lhs[k] == e;
      }
    }
  }

  /** Starting from an empty store, a sequence with distinct DocIds toggles
      into exactly its own entries. */
  lemma {:induction false} FromEmpty<P>(es: seq<Entry<P>>)
    requires UniqueIds(es)
    ensures ToggleAll(Empty(), es) == EntryMap(es)
  {
    ToggleAllIsSymDiff(Empty(), es);
    assert SymDiff(Empty(), EntryMap(es)) == EntryMap(es);
  }

  /** An entry toggled twice in a row cancels out when its DocId starts absent
      or already holds that very entry. */
  lemma ToggleTwice<P>(db: Database<P>, e: Entry<P>)
    requires e.docId in db ==> db[e.docId] == e
    ensures Toggle(Toggle(db, e), e) == db
  {
    assert Toggle(Toggle(db, e), e).Keys == db.Keys;
  }

  /** Toggling a concatenation toggles the first part, then the second. */
  lemma {:induction false} ToggleAllConcat<P>(db: Database<P>, a: seq<Entry<P>>, b: seq<Entry<P>>)
    ensures ToggleAll(db, a + b) == ToggleAll(ToggleAll(db, a), b)
    decreases |a|
  {
    if |a| == 0 {
      assert a + b == b;
    } else {
      assert (a + b)[0] == a[0] && (a + b)[1..] == a[1..] + b;
      ToggleAllConcat(Toggle(db, a[0]), a[1..], b);
    }
  }

  /** Toggles of entries with different DocIds commute. */
  lemma ToggleCommute<P>(db: Database<P>, x: Entry<P>, y: Entry<P>)
    requires x.docId != y.docId
    ensures Toggle(Toggle(db, x), y) == Toggle(Toggle(db, y), x)
  {
    assert Toggle(Toggle(db, x), y).Keys == Toggle(Toggle(db, y), x).Keys;
  }

  /** A toggle moves past a sequence that never carries its DocId. */
  lemma {:induction false} TogglePast<P>(db: Database<P>, e: Entry<P>, es: seq<Entry<P>>)
    requires !HasId(es, e.docId)
    ensures ToggleAll(Toggle(db, e), es) == Toggle(ToggleAll(db, es), e)
    decreases |es|
  {
    if |es| > 0 {
      assert es[0].docId != e.docId;
      ToggleCommute(db, e, es[0]);
      assert !HasId(es[1..], e.docId) by {
        forall i | 0 <= i < |es[1..]| ensures es[1..][i].docId != e.docId {
          assert es[1..][i] == es[i + 1];
        }
      }
      TogglePast(Toggle(db, es[0]), e, es[1..]);
    }
  }

  /** A sequence that never carries a DocId leaves that DocId's entry alone. */
  lemma {:induction false} ToggleAllFrame<P>(db: Database<P>, es: seq<Entry<P>>, k: string)
    requires !HasId(es, k)
    ensures k in ToggleAll(db, es) <==> k in db
    ensures k in db ==> ToggleAll(db, es)[k] == db[k]
    decreases |es|
  {
    if |es| > 0 {
      assert es[0].docId != k;
      assert !HasId(es[1..], k) by {
        forall i | 0 <= i < |es[1..]| ensures es[1..][i].docId != k {
          assert es[1..][i] == es[i + 1];
        }
      }
      ToggleAllFrame(Toggle(db, es[0]), es[1..], k);
    }
  }

  /** Toggling a sequence that starts with an entry toggles that entry first. */
  lemma ToggleAllCons<P>(db: Database<P>, e: Entry<P>, es: seq<Entry<P>>)
    ensures ToggleAll(db, [e] + es) == ToggleAll(Toggle(db, e), es)
  {
    assert ([e] + es)[1..] == es;
  }

  /** An entry toggled, then a run that never touches its DocId, then the
      entry again: the two toggles cancel. */
  lemma {:induction false} ToggleAroundCancels<P>(x: Database<P>, e: Entry<P>, ys: seq<Entry<P>>, zs: seq<Entry<P>>)
    requires !HasId(ys, e.docId)
    requires e.docId in x ==> x[e.docId] == e
    ensures ToggleAll(x, [e] + ys + [e] + zs) == ToggleAll(x, ys + zs)
  {
    var y := ToggleAll(x, ys);
    var tail := [e] + zs;
    ToggleAllFrame(x, ys, e.docId);
    ToggleTwice(y, e);
    calc {
      ToggleAll(x, [e] + ys + [e] + zs);
      { assert [e] + ys + [e] + zs == [e] + (ys + tail); }
      ToggleAll(x, [e] + (ys + tail));
      { ToggleAllCons(x, e, ys + tail); }
      ToggleAll(Toggle(x, e), ys + tail);
      { ToggleAllConcat(Toggle(x, e), ys, tail); TogglePast(x, e, ys); }
      ToggleAll(Toggle(y, e), tail);
      { ToggleAllCons(Toggle(y, e), e, zs); }
      ToggleAll(Toggle(Toggle(y, e), e), zs);
      ToggleAll(y, zs);
      { ToggleAllConcat(x, ys, zs); }
      ToggleAll(x, ys + zs);
    }
  }

  /** An entry that occurs twice cancels out when nothing before its second
      occurrence touches its DocId and the store starts without it or with
      that very entry. */
  lemma {:induction false} ToggleRepeatCancels<P>(db: Database<P>, xs: seq<Entry<P>>, e: Entry<P>, ys: seq<Entry<P>>, zs: seq<Entry<P>>)
    requires !HasId(xs, e.docId) && !HasId(ys, e.docId)
    requires e.docId in db ==> db[e.docId] == e
    ensures ToggleAll(db, xs + [e] + ys + [e] + zs) == ToggleAll(db, xs + ys + zs)
  {
    ToggleAllFrame(db, xs, e.docId);
    var rest := [e] + ys + [e] + zs;
    assert xs + [e] + ys + [e] + zs == xs + rest;
    ToggleAllConcat(db, xs, rest);
    ToggleAroundCancels(ToggleAll(db, xs), e, ys, zs);
    assert xs + ys + zs == xs + (ys + zs);
    ToggleAllConcat(db, xs, ys + zs);
  }
}
