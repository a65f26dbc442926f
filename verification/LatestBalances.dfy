/** The latest balance of each currency (`balance_repo.py`): a ranking query over an append-only log of
    snapshots, against a map maintained as snapshots arrive. */
module LatestBalances {
  import opened Prelude
  import opened Domain

  // ---------- the order of currencies ----------

  /** Strict order of strings by code point. */
  predicate Less(a: string, b: string) {
    b != [] && (a == [] || a[0] < b[0] || (a[0] == b[0] && Less(a[1..], b[1..])))
  }

  lemma {:induction false} LessIrreflexive(a: string)
    ensures !Less(a, a)
  {
    if a != [] {
      LessIrreflexive(a[1..]);
    }
  }

  lemma {:induction false} LessTotal(a: string, b: string)
    ensures a == b || Less(a, b) || Less(b, a)
    ensures !(Less(a, b) && Less(b, a)) && !Less(a, a)
    decreases |a|
  {
    if a != [] {
      if b != [] && a[0] == b[0] {
        LessTotal(a[1..], b[1..]);
        assert a == [a[0]] + a[1..] && b == [b[0]] + b[1..];
      }
      LessIrreflexive(a);
    }
  }

  lemma {:induction false} LessTransitive(a: string, b: string, c: string)
    requires Less(a, b) && Less(b, c)
    ensures Less(a, c)
    decreases |a|
  {
    if a != [] && a[0] == b[0] == c[0] {
      LessTransitive(a[1..], b[1..], c[1..]);
    }
  }

  // ---------- the query ----------

  /** ORDER BY observed_at DESC, id DESC: `a` ranks before `b`. */
  predicate Newer(a: Balance, b: Balance) {
    a.observedAt > b.observedAt || (a.observedAt == b.observedAt && a.id > b.id)
  }

  /** PARTITION BY currency, within one credential. */
  predicate SamePartition(a: Balance, b: Balance) {
    a.credential == b.credential && a.currency == b.currency
  }

  /** How many rows of its partition rank before `b`, plus one. */
  function RowNumber(log: seq<Balance>, b: Balance): nat {
    if log == [] then 1
    else
      var n := |log| - 1;
      RowNumber(log[..n], b) + if SamePartition(log[n], b) && Newer(log[n], b) then 1 else 0
  }

  /** WHERE credential_id = ... AND rn = 1, in log order. */
  function RankedFirst(all: seq<Balance>, log: seq<Balance>, credential: Uuid): seq<Balance> {
    if log == [] then []
    else
      var n := |log| - 1;
      RankedFirst(all, log[..n], credential)
      + if log[n].credential == credential && RowNumber(all, log[n]) == 1 then [log[n]] else []
  }

  function InsertByCurrency(rows: seq<Balance>, b: Balance): seq<Balance> {
    if rows == [] || Less(b.currency, rows[0].currency) then [b] + rows
    else [rows[0]] + InsertByCurrency(rows[1..], b)
  }

  /** ORDER BY currency. */
  function SortByCurrency(rows: seq<Balance>): seq<Balance> {
    if rows == [] then []
    else InsertByCurrency(SortByCurrency(rows[..|rows| - 1]), rows[|rows| - 1])
  }

  function LatestForCredential(log: seq<Balance>, credential: Uuid): seq<Balance> {
    SortByCurrency(RankedFirst(log, log, credential))
  }

  // ---------- the incremental view ----------

  /** The latest row of each (credential, currency), updated by one snapshot. */
  function Update(latest: map<(Uuid, string), Balance>, b: Balance): map<(Uuid, string), Balance> {
    var key := (b.credential, b.currency);
    if key in latest && Newer(latest[key], b) then latest else latest[key := b]
  }

  function Maintained(log: seq<Balance>): map<(Uuid, string), Balance> {
    if log == [] then map[]
    else Update(Maintained(log[..|log| - 1]), log[|log| - 1])
  }

  /** The primary key. */
  ghost predicate DistinctIds(log: seq<Balance>) {
    forall i, j | 0 <= i < j < |log| :: log[i].id != log[j].id
  }

  // ---------- what ranking means ----------

  lemma {:induction false} RowNumberOne(log: seq<Balance>, b: Balance)
    ensures RowNumber(log, b) >= 1
    ensures RowNumber(log, b) == 1 <==> forall a | a in log :: !(SamePartition(a, b) && Newer(a, b))
  {
    if log != [] {
      var n := |log| - 1;
      RowNumberOne(log[..n], b);
      assert log == log[..n] + [log[n]];
    }
  }

  lemma {:induction false} RankedFirstMembers(all: seq<Balance>, log: seq<Balance>, credential: Uuid, b: Balance)
    ensures b in RankedFirst(all, log, credential) <==>
            b in log && b.credential == credential && RowNumber(all, b) == 1
  {
    if log != [] {
      var n := |log| - 1;
      RankedFirstMembers(all, log[..n], credential, b);
      assert log == log[..n] + [log[n]];
    }
  }

  /** The maintained map holds, for each key, the newest row of the log; keys are those ever seen. */
  lemma {:induction false} MaintainedIsNewest(log: seq<Balance>, credential: Uuid, currency: string)
    requires DistinctIds(log)
    ensures var key := (credential, currency); var m := Maintained(log);
      && (key in m <==> exists b | b in log :: b.credential == credential && b.currency == currency)
      && (key in m ==>
            && m[key] in log && m[key].credential == credential && m[key].currency == currency
            && (forall a | a in log && SamePartition(a, m[key]) :: !Newer(a, m[key])))
  {
    if log != [] {
      var n := |log| - 1;
      assert log == log[..n] + [log[n]];
      MaintainedIsNewest(log[..n], credential, currency);
    }
  }

  /** A row is ranked first exactly when it is what the maintained map holds for its key. */
  lemma RankedIffMaintained(log: seq<Balance>, b: Balance)
    requires DistinctIds(log) && b in log
    ensures (b.credential, b.currency) in Maintained(log)
    ensures RowNumber(log, b) == 1 <==> Maintained(log)[(b.credential, b.currency)] == b
  {
    RowNumberOne(log, b);
    MaintainedIsNewest(log, b.credential, b.currency);
    var m := Maintained(log)[(b.credential, b.currency)];
    var i :| 0 <= i < |log| && log[i] == b;
    var j :| 0 <= j < |log| && log[j] == m;
    assert i != j ==> b.id != m.id;
  }

  // ---------- sorting ----------

  ghost predicate SortedByCurrency(rows: seq<Balance>) {
    forall i, j | 0 <= i < j < |rows| :: Less(rows[i].currency, rows[j].currency)
  }

  lemma {:induction false} InsertMembers(rows: seq<Balance>, b: Balance)
    ensures |InsertByCurrency(rows, b)| == |rows| + 1
    ensures forall x :: x in InsertByCurrency(rows, b) <==> x in rows || x == b
  {
    if rows != [] && !Less(b.currency, rows[0].currency) {
      InsertMembers(rows[1..], b);
      assert rows == [rows[0]] + rows[1..];
    }
  }

  lemma {:induction false} InsertSorts(rows: seq<Balance>, b: Balance)
    requires SortedByCurrency(rows) && forall x | x in rows :: x.currency != b.currency
    ensures SortedByCurrency(InsertByCurrency(rows, b))
  {
    if rows != [] {
      LessTotal(b.currency, rows[0].currency);
      if Less(b.currency, rows[0].currency) {
        forall j | 1 <= j < |rows| ensures Less(b.currency, rows[j].currency) {
          LessTransitive(b.currency, rows[0].currency, rows[j].currency);
        }
      } else {
        InsertSorts(rows[1..], b);
        var tail := InsertByCurrency(rows[1..], b);
        InsertMembers(rows[1..], b);
        forall j | 0 <= j < |tail| ensures Less(rows[0].currency, tail[j].currency) {
          assert tail[j] in tail;
          if tail[j] != b {
            var k :| 0 <= k < |rows[1..]| && rows[1..][k] == tail[j];
            assert rows[k + 1] == tail[j];
          }
        }
      }
    }
  }

  ghost predicate OnePerCurrency(rows: seq<Balance>) {
    forall i, j | 0 <= i < j < |rows| :: rows[i].currency != rows[j].currency
  }

  lemma {:induction false} SortSorts(rows: seq<Balance>)
    requires OnePerCurrency(rows)
    ensures SortedByCurrency(SortByCurrency(rows))
    ensures forall x :: x in SortByCurrency(rows) <==> x in rows
  {
    if rows != [] {
      var n := |rows| - 1;
      assert rows == rows[..n] + [rows[n]];
      SortSorts(rows[..n]);
      InsertMembers(SortByCurrency(rows[..n]), rows[n]);
      forall x | x in SortByCurrency(rows[..n]) ensures x.currency != rows[n].currency {
        var k :| 0 <= k < n && rows[k] == x;
      }
      InsertSorts(SortByCurrency(rows[..n]), rows[n]);
    }
  }

  lemma TailMembers(rows: seq<Balance>, x: Balance)
    requires rows != [] && SortedByCurrency(rows)
    ensures x in rows[1..] <==> x in rows && x != rows[0]
  {
    assert rows == [rows[0]] + rows[1..];
    if x in rows[1..] {
      var k :| 0 <= k < |rows[1..]| && rows[1..][k] == x;
      assert Less(rows[0].currency, rows[k + 1].currency);
      LessIrreflexive(x.currency);
    }
  }

  /** A strictly sorted list is determined by its members. */
  lemma {:induction false} SortedListsWithSameMembersAreEqual(a: seq<Balance>, b: seq<Balance>)
    requires SortedByCurrency(a) && SortedByCurrency(b) && forall x :: x in a <==> x in b
    ensures a == b
    decreases |a|
  {
    assert b == [] || b[0] in a;
    if a != [] {
      assert a[0] in a && b[0] in b;
      var i :| 0 <= i < |b| && b[i] == a[0];
      var j :| 0 <= j < |a| && a[j] == b[0];
      LessTotal(a[0].currency, b[0].currency);
      assert a[0] == b[0];
      forall x ensures x in a[1..] <==> x in b[1..] {
        TailMembers(a, x);
        TailMembers(b, x);
      }
      SortedListsWithSameMembersAreEqual(a[1..], b[1..]);
      assert a == [a[0]] + a[1..] && b == [b[0]] + b[1..];
    }
  }

  lemma {:induction false} RankedFirstOnePerCurrency(all: seq<Balance>, log: seq<Balance>, credential: Uuid)
    requires DistinctIds(all) && log <= all
    ensures OnePerCurrency(RankedFirst(all, log, credential))
  {
    if log != [] {
      var n := |log| - 1;
      RankedFirstOnePerCurrency(all, log[..n], credential);
      var before := RankedFirst(all, log[..n], credential);
      if RankedFirst(all, log, credential) != before {
        forall k | 0 <= k < |before| ensures before[k].currency != log[n].currency {
          RankedFirstMembers(all, log[..n], credential, before[k]);
          RankedIffMaintained(all, before[k]);
          RankedIffMaintained(all, log[n]);
          var i :| 0 <= i < n && log[..n][i] == before[k];
          assert all[i].id != all[n].id;
        }
      }
    }
  }

  // ---------- the theorems ----------

  /** For every log: the query returns, strictly sorted by currency, exactly the rows the maintained map
      holds for the credential, that is one row for each currency ever seen, its newest. */
  lemma QueryShowsMaintainedView(log: seq<Balance>, credential: Uuid)
    requires DistinctIds(log)
    ensures var r := LatestForCredential(log, credential); var m := Maintained(log);
      && SortedByCurrency(r)
      && (forall b ::
            b in r <==> b.credential == credential && (credential, b.currency) in m && m[(credential, b.currency)] == b)
  {
    RankedFirstOnePerCurrency(log, log, credential);
    SortSorts(RankedFirst(log, log, credential));
    var r, m := LatestForCredential(log, credential), Maintained(log);
    forall b
      ensures
        b in r <==> b.credential == credential && (credential, b.currency) in m && m[(credential, b.currency)] == b
    {
      RankedFirstMembers(log, log, credential, b);
      MaintainedIsNewest(log, credential, b.currency);
      if b in log {
        RankedIffMaintained(log, b);
      }
    }
  }

  /** The same, said without the map: each currency ever seen appears exactly once, with its maximum by
      (observed_at, id). */
  lemma QueryReturnsNewestPerCurrency(log: seq<Balance>, credential: Uuid, b: Balance)
    requires DistinctIds(log)
    ensures b in LatestForCredential(log, credential) <==>
            b in log && b.credential == credential &&
            forall a | a in log && SamePartition(a, b) && a != b :: Newer(b, a)
  {
    QueryShowsMaintainedView(log, credential);
    MaintainedIsNewest(log, credential, b.currency);
    if b in log {
      RankedIffMaintained(log, b);
      RowNumberOne(log, b);
      forall a | a in log && SamePartition(a, b) && a != b ensures Newer(b, a) || Newer(a, b) {
        var i :| 0 <= i < |log| && log[i] == a;
        var j :| 0 <= j < |log| && log[j] == b;
      }
    }
  }

  /** The answer does not depend on the order in which the snapshots were inserted. */
  lemma InsertionOrderDoesNotMatter(log: seq<Balance>, other: seq<Balance>, credential: Uuid)
    requires DistinctIds(log) && DistinctIds(other) && forall b :: b in log <==> b in other
    ensures LatestForCredential(log, credential) == LatestForCredential(other, credential)
  {
    QueryShowsMaintainedView(log, credential);
    QueryShowsMaintainedView(other, credential);
    var a, b := LatestForCredential(log, credential), LatestForCredential(other, credential);
    forall x ensures x in a <==> x in b {
      QueryReturnsNewestPerCurrency(log, credential, x);
      QueryReturnsNewestPerCurrency(other, credential, x);
    }
    SortedListsWithSameMembersAreEqual(a, b);
  }
}
