/** The export order of scan-bcl: entries sorted by namespace, then type,
    then member, then DocId, then nesting. Strings are compared ordinally
    (character by character, a proper prefix first). */
module Ordering {
  import opened Store

  /** Ordinal strict order on strings. */
  predicate StrLt(a: string, b: string)
    decreases |a|
  {
    if |a| == 0 then |b| > 0
    else if |b| == 0 then false
    else a[0] < b[0] || (a[0] == b[0] && StrLt(a[1..], b[1..]))
  }

  /** No string sorts before itself. */
  lemma {:induction false} StrLtIrreflexive(a: string)
    ensures !StrLt(a, a)
    decreases |a|
  {
    if |a| > 0 {
      StrLtIrreflexive(a[1..]);
    }
  }

  /** The ordinal string order is transitive. */
  lemma {:induction false} StrLtTransitive(a: string, b: string, c: string)
    requires StrLt(a, b) && StrLt(b, c)
    ensures StrLt(a, c)
    decreases |a|
  {
    if |a| > 0 && a[0] == b[0] && b[0] == c[0] {
      StrLtTransitive(a[1..], b[1..], c[1..]);
    }
  }

  /** Any two different strings are ordered one way or the other. */
  lemma {:induction false} StrLtTotal(a: string, b: string)
    requires a != b
    ensures StrLt(a, b) || StrLt(b, a)
    decreases |a|
  {
    if |a| > 0 && |b| > 0 && a[0] == b[0] {
      assert a == [a[0]] + a[1..] && b == [b[0]] + b[1..];
      StrLtTotal(a[1..], b[1..]);
    }
  }

  /** `a` sorts no later than `b` in the export order. */
  predicate EntryLe(a: Entry<int>, b: Entry<int>)
  {
    if a.ns != b.ns then StrLt(a.ns, b.ns)
    else if a.typeName != b.typeName then StrLt(a.typeName, b.typeName)
    else if a.member != b.member then StrLt(a.member, b.member)
    else if a.docId != b.docId then StrLt(a.docId, b.docId)
    else a.payload <= b.payload
  }

  /** The export order is a total order on entries. */
  lemma EntryLeTotal(a: Entry<int>, b: Entry<int>)
    ensures EntryLe(a, b) || EntryLe(b, a)
  {
    if a.ns != b.ns { StrLtTotal(a.ns, b.ns); }
    else if a.typeName != b.typeName { StrLtTotal(a.typeName, b.typeName); }
    else if a.member != b.member { StrLtTotal(a.member, b.member); }
    else if a.docId != b.docId { StrLtTotal(a.docId, b.docId); }
  }

  /** Two entries that each sort no later than the other are equal. */
  lemma EntryLeAntisymmetric(a: Entry<int>, b: Entry<int>)
    requires EntryLe(a, b) && EntryLe(b, a)
    ensures a == b
  {
    if a.ns != b.ns { StrLtIrreflexive(a.ns); StrLtTransitive(a.ns, b.ns, a.ns); }
    else if a.typeName != b.typeName { StrLtIrreflexive(a.typeName); StrLtTransitive(a.typeName, b.typeName, a.typeName); }
    else if a.member != b.member { StrLtIrreflexive(a.member); StrLtTransitive(a.member, b.member, a.member); }
    else if a.docId != b.docId { StrLtIrreflexive(a.docId); StrLtTransitive(a.docId, b.docId, a.docId); }
  }

  /** The strict order on one key column, with equality deferring to the next. */
  lemma KeyStep(x: string, y: string, z: string)
    requires (x != y ==> StrLt(x, y)) && (y != z ==> StrLt(y, z))
    ensures x != z ==> StrLt(x, z)
    ensures x == z ==> x == y
  {
    if x != y && y != z { StrLtTransitive(x, y, z); }
    if x == z && x != y { StrLtTransitive(x, y, x); StrLtIrreflexive(x); }
  }

  /** The export order is transitive. */
  lemma EntryLeTransitive(a: Entry<int>, b: Entry<int>, c: Entry<int>)
    requires EntryLe(a, b) && EntryLe(b, c)
    ensures EntryLe(a, c)
  {
    KeyStep(a.ns, b.ns, c.ns);
    if a.ns == b.ns && b.ns == c.ns {
      KeyStep(a.typeName, b.typeName, c.typeName);
      if a.typeName == b.typeName && b.typeName == c.typeName {
        KeyStep(a.member, b.member, c.member);
        if a.member == b.member && b.member == c.member {
          KeyStep(a.docId, b.docId, c.docId);
        }
      }
    }
  }

  /** Every entry sorts no later than every later entry. */
  predicate Sorted(s: seq<Entry<int>>)
  {
    forall i, j :: 0 <= i < j < |s| ==> EntryLe(s[i], s[j])
  }

  /** Inserts an entry into a sorted sequence at its place in the order. */
  function Insert(x: Entry<int>, s: seq<Entry<int>>): (r: seq<Entry<int>>)
    requires Sorted(s)
    ensures multiset(r) == multiset(s) + multiset{x}
    ensures Sorted(r)
    decreases |s|
  {
    if |s| == 0 then
      [x]
    else if EntryLe(x, s[0]) then
      InsertFront(x, s);
      [x] + s
    else
      EntryLeTotal(x, s[0]);
      var tail := Insert(x, s[1..]);
      InsertBehind(s[0], x, s[1..], tail);
      assert s == [s[0]] + s[1..];
      [s[0]] + tail
  }

  /** An entry no later than the head of a sorted sequence can go in front. */
  lemma InsertFront(x: Entry<int>, s: seq<Entry<int>>)
    requires Sorted(s) && |s| > 0 && EntryLe(x, s[0])
    ensures Sorted([x] + s)
  {
    var r := [x] + s;
    forall i, j | 0 <= i < j < |r| ensures EntryLe(r[i], r[j]) {
      assert r[j] == s[j - 1];
      if i > 0 {
        assert r[i] == s[i - 1];
      } else if j > 1 {
        EntryLeTransitive(x, s[0], s[j - 1]);
      }
    }
  }

  /** A sorted rearrangement of the tail plus a later entry stays sorted
      behind the head. */
  lemma InsertBehind(h: Entry<int>, x: Entry<int>, rest: seq<Entry<int>>, tail: seq<Entry<int>>)
    requires Sorted([h] + rest) && EntryLe(h, x)
    requires Sorted(tail) && multiset(tail) == multiset(rest) + multiset{x}
    ensures Sorted([h] + tail)
  {
    var r := [h] + tail;
    forall i, j | 0 <= i < j < |r| ensures EntryLe(r[i], r[j]) {
      assert r[j] == tail[j - 1];
      if i > 0 {
        assert r[i] == tail[i - 1];
      } else {
        var e := tail[j - 1];
        assert e in multiset(tail);
        if e != x {
          assert e in multiset(rest);
          var k :| 0 <= k < |rest| && rest[k] == e;
          assert ([h] + rest)[0] == h && ([h] + rest)[k + 1] == e;
        }
      }
    }
  }

  /** The head of a sorted sequence sorts no later than any of its entries. */
  lemma HeadFirst(s: seq<Entry<int>>, e: Entry<int>)
    requires Sorted(s) && e in multiset(s)
    ensures EntryLe(s[0], e)
  {
    var i :| 0 <= i < |s| && s[i] == e;
    if i == 0 { EntryLeTotal(e, e); }
  }

  /** Sorting is unique: two sorted arrangements of the same entries are the
      same sequence, so the export order is determined by the entries alone. */
  lemma {:induction false} SortedUnique(s: seq<Entry<int>>, t: seq<Entry<int>>)
    requires Sorted(s) && Sorted(t) && multiset(s) == multiset(t)
    ensures s == t
    decreases |s|
  {
    assert |s| == |multiset(s)| == |t|;
    if |s| > 0 {
      HeadFirst(t, s[0]);
      HeadFirst(s, t[0]);
      EntryLeAntisymmetric(s[0], t[0]);
      TailMultiset(s);
      TailMultiset(t);
      SortedUnique(s[1..], t[1..]);
      assert s == [s[0]] + s[1..] && t == [t[0]] + t[1..];
    }
  }

  /** Dropping the head removes exactly one copy of it from the multiset. */
  lemma TailMultiset(s: seq<Entry<int>>)
    requires |s| > 0
    ensures multiset(s[1..]) == multiset(s) - multiset{s[0]}
  {
    assert s == [s[0]] + s[1..];
  }
}
