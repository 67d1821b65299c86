/** `DatabaseReporter`: receives one classification result per scanned member
    and toggles throwing members in the store, tagging added entries with the
    reporter's api label and the result's severity level. */
module Reporter {
  import opened Wrappers
  import opened Store
  import opened ToggleSet

  /** The identity of a scanned member, as the metadata reader renders it. */
  datatype Member = Member(docId: string, ns: string, typeName: string, signature: string)

  /** What the throw classifier says about one member. */
  datatype ExceptionInfo = ExceptionInfo(throws: bool, level: string)

  /** One `Report` call: a classification result for a member. */
  datatype Observation = Observation(result: ExceptionInfo, member: Member)

  /** The payload the reporter stores: its api label and the result's level. */
  datatype ApiLevel = ApiLevel(api: string, level: string)

  /** `Query`: whether the member's DocId is already in the store. */
  function Query(db: Database<ApiLevel>, docId: string): (r: bool)
    ensures r <==> exists e :: e in Entries(db) && e.docId == docId
  {
    Contains(db, docId)
  }

  /** The entry a throwing observation adds under the api label. */
  function Labelled(api: string, o: Observation): Entry<ApiLevel>
  {
    Entry(o.member.docId, o.member.ns, o.member.typeName, o.member.signature, ApiLevel(api, o.result.level))
  }

  /** `WriteMember`: a non-throwing result is ignored; a throwing member is
      added when its DocId is absent and removed when present. The add is
      guarded by `Query`, so the duplicate-key exception never escapes. */
  function WriteMember(db: Database<ApiLevel>, api: string, result: ExceptionInfo, member: Member)
    : (r: Result<Database<ApiLevel>, Error>)
    ensures r.Success?
    ensures !result.throws ==> r.value == db
    ensures result.throws && member.docId !in db ==>
      && r.value.Keys == db.Keys + {member.docId}
      && r.value[member.docId] == Entry(member.docId, member.ns, member.typeName, member.signature, ApiLevel(api, result.level))
      && forall k :: k in db ==> r.value[k] == db[k]
    ensures result.throws && member.docId in db ==>
      && r.value.Keys == db.Keys - {member.docId}
      && forall k :: k in r.value ==> r.value[k] == db[k]
  {
    if !result.throws then
      Success(db)
    else if !Query(db, member.docId) then
      Add(db, member.docId, member.ns, member.typeName, member.signature, ApiLevel(api, result.level))
    else
      Success(Remove(db, member.docId))
  }

  /** `Report` forwards each observation to `WriteMember`; a pass is the
      sequence of reports the scanner makes for one library version. */
  function ReportPass(db: Database<ApiLevel>, api: string, obs: seq<Observation>): (r: Database<ApiLevel>)
    ensures forall k :: k in db && !ThrowsIn(obs, k) ==> k in r && r[k] == db[k]
    ensures forall k :: k in r ==> k in db || ThrowsIn(obs, k)
    ensures forall k :: k in r && !(k in db && r[k] == db[k]) ==> r[k].payload.api == api
    decreases |obs|
  {
    if |obs| == 0 then db
    else
      var rest := obs[1..];
      assert forall k :: ThrowsIn(rest, k) ==> ThrowsIn(obs, k) by {
        forall k | ThrowsIn(rest, k) ensures ThrowsIn(obs, k) {
          var i :| 0 <= i < |rest| && rest[i].result.throws && rest[i].member.docId == k;
          assert obs[i + 1] == rest[i];
        }
      }
      assert obs[0].result.throws ==> ThrowsIn(obs, obs[0].member.docId);
      ReportPass(WriteMember(db, api, obs[0].result, obs[0].member).value, api, rest)
  }

  /** The entries the throwing observations of a pass carry, in order. */
  function Throwing(api: string, obs: seq<Observation>): (r: seq<Entry<ApiLevel>>)
    ensures forall i :: 0 <= i < |r| ==> r[i].payload.api == api
    decreases |obs|
  {
    if |obs| == 0 then []
    else (if obs[0].result.throws then [Labelled(api, obs[0])] else []) + Throwing(api, obs[1..])
  }

  /** The member with this DocId was observed throwing in the pass. */
  predicate ThrowsIn(obs: seq<Observation>, docId: string)
  {
    exists i :: 0 <= i < |obs| && obs[i].result.throws && obs[i].member.docId == docId
  }

  /** No member is observed throwing twice in one pass. */
  predicate UniqueThrowing(obs: seq<Observation>)
  {
    forall i, j :: 0 <= i < j < |obs| && obs[i].result.throws && obs[j].result.throws ==>
      obs[i].member.docId != obs[j].member.docId
  }

  /** A pass toggles exactly the throwing observations, in order. */
  lemma {:induction false} PassIsToggle(db: Database<ApiLevel>, api: string, obs: seq<Observation>)
    ensures ReportPass(db, api, obs) == ToggleAll(db, Throwing(api, obs))
    decreases |obs|
  {
    if |obs| > 0 {
      var o := obs[0];
      PassIsToggle(WriteMember(db, api, o.result, o.member).value, api, obs[1..]);
      if o.result.throws {
        var t := Throwing(api, obs);
        assert t == [Labelled(api, o)] + Throwing(api, obs[1..]);
        assert t[1..] == Throwing(api, obs[1..]);
        assert WriteMember(db, api, o.result, o.member).value == Toggle(db, Labelled(api, o));
      } else {
        assert Throwing(api, obs) == Throwing(api, obs[1..]);
      }
    }
  }

  /** The DocIds of a pass's throwing entries are those observed throwing,
      and they stay distinct when no member is observed throwing twice. */
  lemma {:induction false} ThrowingIds(api: string, obs: seq<Observation>)
    ensures forall k :: HasId(Throwing(api, obs), k) <==> ThrowsIn(obs, k)
    ensures UniqueThrowing(obs) ==> UniqueIds(Throwing(api, obs))
    decreases |obs|
  {
    if |obs| > 0 {
      var o, rest := obs[0], obs[1..];
      ThrowingIds(api, rest);
      var head := if o.result.throws then [Labelled(api, o)] else [];
      var t, tr := Throwing(api, obs), Throwing(api, rest);
      assert t == head + tr;
      forall k ensures HasId(t, k) <==> ThrowsIn(obs, k) {
        if HasId(t, k) {
          var i :| 0 <= i < |t| && t[i].docId == k;
          if i >= |head| {
            assert t[i] == tr[i - |head|];
            assert HasId(tr, k);
            var j :| 0 <= j < |rest| && rest[j].result.throws && rest[j].member.docId == k;
            assert obs[j + 1] == rest[j];
          }
        }
        if ThrowsIn(obs, k) {
          var j :| 0 <= j < |obs| && obs[j].result.throws && obs[j].member.docId == k;
          if j > 0 {
            assert rest[j - 1] == obs[j];
            assert ThrowsIn(rest, k);
            var i :| 0 <= i < |tr| && tr[i].docId == k;
            assert t[i + |head|] == tr[i];
          } else {
            assert t[0] == Labelled(api, o);
          }
        }
      }
      if UniqueThrowing(obs) {
        assert UniqueThrowing(rest) by {
          forall i, j | 0 <= i < j < |rest| && rest[i].result.throws && rest[j].result.throws
            ensures rest[i].member.docId != rest[j].member.docId
          {
            assert rest[i] == obs[i + 1] && rest[j] == obs[j + 1];
          }
        }
        forall i, j | 0 <= i < j < |t| ensures t[i].docId != t[j].docId {
          if i < |head| {
            assert t[j] == tr[j - 1];
            assert HasId(tr, t[j].docId);
            var m :| 0 <= m < |rest| && rest[m].result.throws && rest[m].member.docId == t[j].docId;
            assert obs[m + 1] == rest[m];
          } else {
            assert t[i] == tr[i - |head|] && t[j] == tr[j - |head|];
          }
        }
      }
    }
  }

  /** A pass from the empty store holds exactly the pass's throwing entries. */
  lemma {:induction false} PassFromEmpty(api: string, obs: seq<Observation>)
    requires UniqueThrowing(obs)
    ensures ReportPass(Empty(), api, obs) == EntryMap(Throwing(api, obs))
  {
    ThrowingIds(api, obs);
    PassIsToggle(Empty(), api, obs);
    FromEmpty(Throwing(api, obs));
  }

  /** Two passes leave the symmetric difference of their throwing entries. */
  lemma {:induction false} TwoPassSymDiff(a: string, obsA: seq<Observation>, b: string, obsB: seq<Observation>)
    requires UniqueThrowing(obsA) && UniqueThrowing(obsB)
    ensures ReportPass(ReportPass(Empty(), a, obsA), b, obsB)
         == SymDiff(EntryMap(Throwing(a, obsA)), EntryMap(Throwing(b, obsB)))
  {
    PassFromEmpty(a, obsA);
    var afterA := ReportPass(Empty(), a, obsA);
    ThrowingIds(b, obsB);
    PassIsToggle(afterA, b, obsB);
    ToggleAllIsSymDiff(afterA, Throwing(b, obsB));
  }

  /** The two-pass protocol: a pass under label `a` from the empty store, then
      a pass under label `b`. A member ends up in the store exactly when it was
      observed throwing in one pass and not the other, carrying the label of
      the pass that saw it throw: it holds exactly the entry that pass alone
      would have stored. Non-throwing observations change nothing, so a member
      that stops throwing keeps its first-pass entry. */
  lemma TwoPass(a: string, obsA: seq<Observation>, b: string, obsB: seq<Observation>)
    requires UniqueThrowing(obsA) && UniqueThrowing(obsB)
    ensures var r := ReportPass(ReportPass(Empty(), a, obsA), b, obsB);
      && (forall k :: k in r <==> ThrowsIn(obsA, k) != ThrowsIn(obsB, k))
      && (forall k :: k in r && ThrowsIn(obsA, k) ==> r[k].payload.api == a)
      && (forall k :: k in r && ThrowsIn(obsB, k) ==> r[k].payload.api == b)
    ensures var r := ReportPass(ReportPass(Empty(), a, obsA), b, obsB);
      var onlyA, onlyB := ReportPass(Empty(), a, obsA), ReportPass(Empty(), b, obsB);
      && (forall k :: k in r && ThrowsIn(obsA, k) ==> k in onlyA && r[k] == onlyA[k])
      && (forall k :: k in r && ThrowsIn(obsB, k) ==> k in onlyB && r[k] == onlyB[k])
  {
    PassFromEmpty(a, obsA);
    PassFromEmpty(b, obsB);
    var ta, tb := Throwing(a, obsA), Throwing(b, obsB);
    ThrowingIds(a, obsA);
    ThrowingIds(b, obsB);
    TwoPassSymDiff(a, obsA, b, obsB);
    var ma, mb := EntryMap(ta), EntryMap(tb);
    var r := SymDiff(ma, mb);
    assert forall k :: k in r <==> (k in ma) != (k in mb);
    forall k | k in r && ThrowsIn(obsA, k) ensures r[k].payload.api == a {
      assert r[k] == ma[k] && ma[k] in ta;
    }
    forall k | k in r && ThrowsIn(obsB, k) ensures r[k].payload.api == b {
      assert r[k] == mb[k] && mb[k] in tb;
    }
  }

  /** Reporting the same throwing member twice restores the store when the
      member was absent, or present with exactly the entry it would write. */
  lemma WriteMemberTwice(db: Database<ApiLevel>, api: string, result: ExceptionInfo, member: Member)
    requires result.throws
    requires member.docId in db ==> db[member.docId] == Labelled(api, Observation(result, member))
    ensures var once := WriteMember(db, api, result, member).value;
      WriteMember(once, api, result, member).value == db
  {
    var once := WriteMember(db, api, result, member).value;
    var twice := WriteMember(once, api, result, member).value;
    assert twice.Keys == db.Keys;
  }

  /** Reporting twice a member already present with another label or level
      re-adds it with the reporter's own label and the new level. */
  lemma WriteMemberTwiceRelabels(db: Database<ApiLevel>, api: string, result: ExceptionInfo, member: Member)
    requires result.throws && member.docId in db
    ensures var once := WriteMember(db, api, result, member).value;
      var twice := WriteMember(once, api, result, member).value;
      && twice.Keys == db.Keys
      && twice[member.docId] == Labelled(api, Observation(result, member))
  {
  }

  /** An observation of member `d` (namespace N, type T) that throws. */
  function ThrowingObs(d: string): Observation
  {
    Observation(ExceptionInfo(true, "high"), Member(d, "N", "T", d))
  }

  /** An observation of member `d` (namespace N, type T) that does not throw. */
  function Quiet(d: string): Observation
  {
    Observation(ExceptionInfo(false, "none"), Member(d, "N", "T", d))
  }

  /** A scenario: the baseline sees A and B throw; the target sees A and C
      throw and D not throw. The result holds B under the baseline label and
      C under the target label; A cancels and D never appears. */
  lemma {:induction false} BaselineTargetScenario(obsA: seq<Observation>, obsB: seq<Observation>)
    requires obsA == [ThrowingObs("A"), ThrowingObs("B")]
    requires obsB == [ThrowingObs("A"), ThrowingObs("C"), Quiet("D")]
    ensures var r := ReportPass(ReportPass(Empty(), "baseline", obsA), "target", obsB);
      r.Keys == {"B", "C"} && r["B"].payload.api == "baseline" && r["C"].payload.api == "target"
  {
    TwoPass("baseline", obsA, "target", obsB);
    ScenarioOutcome(ReportPass(ReportPass(Empty(), "baseline", obsA), "target", obsB), obsA, obsB);
  }

  /** The scenario's conclusion, from the two-pass facts alone. */
  lemma ScenarioOutcome(r: Database<ApiLevel>, obsA: seq<Observation>, obsB: seq<Observation>)
    requires obsA == [ThrowingObs("A"), ThrowingObs("B")]
    requires obsB == [ThrowingObs("A"), ThrowingObs("C"), Quiet("D")]
    requires forall k :: k in r <==> ThrowsIn(obsA, k) != ThrowsIn(obsB, k)
    requires forall k :: k in r && ThrowsIn(obsA, k) ==> r[k].payload.api == "baseline"
    requires forall k :: k in r && ThrowsIn(obsB, k) ==> r[k].payload.api == "target"
    ensures r.Keys == {"B", "C"} && r["B"].payload.api == "baseline" && r["C"].payload.api == "target"
  {
    assert ThrowsIn(obsA, "A") by { assert obsA[0] == ThrowingObs("A"); }
    assert ThrowsIn(obsB, "A") by { assert obsB[0] == ThrowingObs("A"); }
    assert ThrowsIn(obsA, "B") by { assert obsA[1] == ThrowingObs("B"); }
    assert ThrowsIn(obsB, "C") by { assert obsB[1] == ThrowingObs("C"); }
    ScenarioIds(obsA, obsB);
    assert "B" in r && "C" in r;
    assert forall k :: k in r ==> k == "B" || k == "C";
  }

  /** The members the scenario's passes observe throwing. */
  lemma ScenarioIds(obsA: seq<Observation>, obsB: seq<Observation>)
    requires obsA == [ThrowingObs("A"), ThrowingObs("B")]
    requires obsB == [ThrowingObs("A"), ThrowingObs("C"), Quiet("D")]
    ensures forall k :: ThrowsIn(obsA, k) ==> k == "A" || k == "B"
    ensures forall k :: ThrowsIn(obsB, k) ==> k == "A" || k == "C"
  {
    forall k | ThrowsIn(obsA, k) ensures k == "A" || k == "B" {
      var i :| 0 <= i < |obsA| && obsA[i].result.throws && obsA[i].member.docId == k;
    }
    forall k | ThrowsIn(obsB, k) ensures k == "A" || k == "C" {
      var i :| 0 <= i < |obsB| && obsB[i].result.throws && obsB[i].member.docId == k;
    }
  }
}
