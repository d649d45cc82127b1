// Reading a log file page by page, each page starting after the last row of the one before
// (convertsys/src/ManageSQLiteFile.cpp:207-259, cachesys/src/serialize/SQLiteSerialize.cpp:67-142).
module Paging {
  import opened Records

  // A log file: whether it opens, its rows by row number, and how many reads of it succeed.
  datatype LogFile = LogFile(canOpen: bool, rows: map<nat, Record>, goodReads: nat)

  const PAGE_SIZE := 10000

  predicate RowsNumbered(rows: map<nat, Record>) {
    forall n :: n in rows ==> rows[n].guid == n
  }

  predicate Ascending(s: seq<nat>) {
    forall i, j :: 0 <= i < j < |s| ==> s[i] < s[j]
  }

  lemma {:induction false} FindMax(keys: set<nat>) returns (m: nat)
    requires keys != {}
    ensures m in keys && forall k :: k in keys ==> k <= m
  {
    m :| m in keys;
    var rest := keys - {m};
    if rest != {} {
      var n := FindMax(rest);
      assert forall k :: k in keys ==> k == m || k in rest;
      m := if m < n then n else m;
    } else {
      assert keys == {m};
    }
  }

  lemma MaxExists(keys: set<nat>)
    requires keys != {}
    ensures exists m :: m in keys && forall k :: k in keys ==> k <= m
  {
    var m := FindMax(keys);
  }

  // The numbers in ascending order.
  function Sorted(keys: set<nat>): (s: seq<nat>)
    ensures Ascending(s)
    ensures forall k :: k in s <==> k in keys
  {
    if keys == {} then []
    else
      MaxExists(keys);
      var m :| m in keys && forall k :: k in keys ==> k <= m;
      Sorted(keys - {m}) + [m]
  }

  lemma LastIsGreatest(s: seq<nat>)
    requires Ascending(s) && s != []
    ensures Ascending(s[..|s| - 1])
    ensures forall k :: k in s[..|s| - 1] <==> k in s && k != s[|s| - 1]
    ensures forall k :: k in s ==> k <= s[|s| - 1]
  {
    assert s == s[..|s| - 1] + [s[|s| - 1]];
  }

  lemma {:induction false} AscendingUnique(a: seq<nat>, b: seq<nat>)
    requires Ascending(a) && Ascending(b)
    requires forall k :: k in a <==> k in b
    ensures a == b
  {
    assert |a| > 0 ==> a[0] in b;
    assert |b| > 0 ==> b[0] in a;
    if a != [] {
      LastIsGreatest(a);
      LastIsGreatest(b);
      assert a[|a| - 1] in b && b[|b| - 1] in a;
      assert a[|a| - 1] == b[|b| - 1];
      var p, q := a[..|a| - 1], b[..|b| - 1];
      forall k ensures k in p <==> k in q {
        assert k in a <==> k in b;
      }
      AscendingUnique(p, q);
      assert a == a[..|a| - 1] + [a[|a| - 1]] && b == b[..|b| - 1] + [b[|b| - 1]];
    }
  }

  // The row numbers after `last`, in order: what the query of a page ranges over.
  function NumbersAfter(rows: map<nat, Record>, last: nat): seq<nat> {
    Sorted(set n | n in rows && n > last)
  }

  function RowsOf(rows: map<nat, Record>, numbers: seq<nat>): seq<Record>
    requires forall n :: n in numbers ==> n in rows
  {
    seq(|numbers|, i requires 0 <= i < |numbers| => assert numbers[i] in numbers; rows[numbers[i]])
  }

  function RowsAfter(rows: map<nat, Record>, last: nat): seq<Record> {
    RowsOf(rows, NumbersAfter(rows, last))
  }

  function Page(rows: map<nat, Record>, last: nat): seq<Record> {
    var all := RowsAfter(rows, last);
    if |all| <= PAGE_SIZE then all else all[..PAGE_SIZE]
  }

  lemma NumbersAdvance(rows: map<nat, Record>, last: nat, k: nat)
    requires 0 < k <= |NumbersAfter(rows, last)|
    ensures var ns := NumbersAfter(rows, last);
            NumbersAfter(rows, ns[k - 1]) == ns[k..] && ns[k - 1] > last
  {
    var ns := NumbersAfter(rows, last);
    assert ns[k - 1] in ns;
    var next, tail := ns[k - 1], ns[k..];
    forall n ensures n in tail <==> n in NumbersAfter(rows, next) {
      if n in tail {
        var i :| 0 <= i < |tail| && tail[i] == n;
        assert ns[k + i] == n && n in ns && ns[k - 1] < ns[k + i];
      }
      if n in NumbersAfter(rows, next) {
        assert n in ns;
        var i :| 0 <= i < |ns| && ns[i] == n;
        assert ns[i] > ns[k - 1];
        assert i >= k;
        assert tail[i - k] == n;
      }
    }
    AscendingUnique(tail, NumbersAfter(rows, next));
  }

  // The next page starts exactly where this one ends: no row is skipped or read twice.
  lemma PageAdvances(rows: map<nat, Record>, last: nat, k: nat)
    requires RowsNumbered(rows)
    requires 0 < k <= |RowsAfter(rows, last)|
    ensures var next := RowsAfter(rows, last)[k - 1].guid;
            next > last && RowsAfter(rows, next) == RowsAfter(rows, last)[k..]
  {
    NumbersAdvance(rows, last, k);
    assert NumbersAfter(rows, last)[k - 1] in NumbersAfter(rows, last);
  }

  // Paging from 0 visits every row exactly when no row is numbered 0, and always in ascending
  // order of row numbers without repetition.
  lemma VisitsEveryRow(rows: map<nat, Record>)
    requires RowsNumbered(rows)
    ensures (forall n :: n in rows ==> rows[n] in RowsAfter(rows, 0)) <==> 0 !in rows
    ensures forall i, j :: 0 <= i < j < |RowsAfter(rows, 0)| ==>
              RowsAfter(rows, 0)[i].guid < RowsAfter(rows, 0)[j].guid
    ensures forall r :: r in RowsAfter(rows, 0) ==> r.guid in rows && rows[r.guid] == r
  {
    var ns, all := NumbersAfter(rows, 0), RowsAfter(rows, 0);
    forall i | 0 <= i < |ns| ensures ns[i] in rows && all[i] == rows[ns[i]] && all[i].guid == ns[i] > 0 {
      assert ns[i] in ns;
    }
    forall r | r in all ensures r.guid in rows && rows[r.guid] == r {
      var i :| 0 <= i < |all| && all[i] == r;
      assert all[i].guid == ns[i];
    }
    if 0 !in rows {
      forall n | n in rows ensures rows[n] in all {
        assert n in ns;
        var i :| 0 <= i < |ns| && ns[i] == n;
        assert all[i] == rows[n];
      }
    } else {
      assert rows[0].guid == 0 && rows[0] !in all;
    }
  }

  // One page of a file whose first `done` rows have been read.
  lemma NextPage(rows: map<nat, Record>, last: nat, all: seq<Record>, done: nat)
    requires RowsNumbered(rows)
    requires done <= |all| && RowsAfter(rows, last) == all[done..]
    ensures var page := Page(rows, last);
            && |page| == (if |all| - done <= PAGE_SIZE then |all| - done else PAGE_SIZE)
            && all[..done + |page|] == all[..done] + page
            && (|page| > 0 ==> RowsAfter(rows, page[|page| - 1].guid) == all[done + |page|..])
            && (|page| == 0 ==> RowsAfter(rows, last) == all[done + |page|..])
  {
    var page := Page(rows, last);
    assert page == all[done..done + |page|];
    if |page| > 0 {
      PageAdvances(rows, last, |page|);
      assert all[done..][|page|..] == all[done + |page|..];
    }
  }
}
