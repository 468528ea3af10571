/**
 * The stream pipelines of the two aggregate endpoints: parsing every salary
 * (mapToInt / the comparator), the maximum, and the stable descending sort
 * followed by limit(10).
 */
module SalaryStreams {
  import opened Wrappers
  import opened JavaInt
  import opened Dtos

  /** An employee together with its parsed salary. */
  datatype Ranked = Ranked(employee: Employee, salary: int)

  /** The number of employees the top-earners endpoint keeps. */
  const TOP_LIMIT: nat := 10

  function Min(a: nat, b: nat): nat {
    if a <= b then a else b
  }

  /**
   * Integer.parseInt applied to every salary, in order; None when any of them
   * is a NumberFormatException.
   */
  function ParseSalaries(es: seq<Employee>): (r: Option<seq<Ranked>>)
    ensures r.Some? <==> forall i :: 0 <= i < |es| ==> ParseInt(es[i].employeeSalary).Some?
    ensures r.Some? ==> |r.value| == |es|
    ensures r.Some? ==> forall i :: 0 <= i < |es| ==>
      r.value[i].employee == es[i] && Some(r.value[i].salary) == ParseInt(es[i].employeeSalary)
  {
    if forall i :: 0 <= i < |es| ==> ParseInt(es[i].employeeSalary).Some? then
      Some(seq(|es|, i requires 0 <= i < |es| => Ranked(es[i], ParseInt(es[i].employeeSalary).value)))
    else
      None
  }

  /** IntStream.max over a non-empty stream: a salary that no other salary exceeds. */
  function MaxSalary(rs: seq<Ranked>): (m: int)
    requires |rs| > 0
    ensures exists i :: 0 <= i < |rs| && rs[i].salary == m
    ensures forall i :: 0 <= i < |rs| ==> rs[i].salary <= m
  {
    if |rs| == 1 then rs[0].salary
    else
      var m := MaxSalary(rs[1..]);
      assert forall i :: 1 <= i < |rs| ==> rs[i] == rs[1..][i - 1];
      if rs[0].salary >= m then rs[0].salary else m
  }

  /** Non-increasing salaries from front to back. */
  predicate Descending(rs: seq<Ranked>) {
    forall i, j :: 0 <= i < j < |rs| ==> rs[i].salary >= rs[j].salary
  }

  /** The entries with salary k, in their order in rs. */
  function WithSalary(rs: seq<Ranked>, k: int): seq<Ranked> {
    if rs == [] then []
    else (if rs[0].salary == k then [rs[0]] else []) + WithSalary(rs[1..], k)
  }

  /**
   * s is a stable descending arrangement of rs: salaries never increase and
   * the entries sharing any one salary appear in the order rs gives them.
   */
  ghost predicate StableDescendingOf(s: seq<Ranked>, rs: seq<Ranked>) {
    Descending(s) && forall k :: WithSalary(s, k) == WithSalary(rs, k)
  }

  lemma WithSalaryCons(x: Ranked, s: seq<Ranked>, k: int)
    ensures WithSalary([x] + s, k) == (if x.salary == k then [x] else []) + WithSalary(s, k)
  {
    assert ([x] + s)[1..] == s;
  }

  lemma {:induction false} WithSalaryAppend(a: seq<Ranked>, b: seq<Ranked>, k: int)
    ensures WithSalary(a + b, k) == WithSalary(a, k) + WithSalary(b, k)
  {
    if a == [] {
      assert a + b == b;
    } else {
      var head := if a[0].salary == k then [a[0]] else [];
      WithSalaryAppend(a[1..], b, k);
      assert a + b == [a[0]] + (a[1..] + b);
      WithSalaryCons(a[0], a[1..] + b, k);
      assert a == [a[0]] + a[1..];
      WithSalaryCons(a[0], a[1..], k);
      calc {
        WithSalary(a + b, k);
        head + WithSalary(a[1..] + b, k);
        head + (WithSalary(a[1..], k) + WithSalary(b, k));
        (head + WithSalary(a[1..], k)) + WithSalary(b, k);
        WithSalary(a, k) + WithSalary(b, k);
      }
    }
  }

  lemma {:induction false} WithSalaryMember(rs: seq<Ranked>, k: int, x: Ranked)
    requires x in WithSalary(rs, k)
    ensures x in rs && x.salary == k
  {
    if rs != [] && x in WithSalary(rs[1..], k) {
      WithSalaryMember(rs[1..], k, x);
    }
  }

  lemma {:induction false} WithSalaryOf(rs: seq<Ranked>, i: nat)
    requires i < |rs|
    ensures WithSalary(rs, rs[i].salary) != []
  {
    if i > 0 {
      WithSalaryOf(rs[1..], i - 1);
    }
  }

  /**
   * Inserts x into a descending s in front of the first entry whose salary
   * does not exceed x's, so x stays ahead of the entries that tie with it.
   */
  function Insert(x: Ranked, s: seq<Ranked>): (r: seq<Ranked>)
    ensures multiset(r) == multiset(s) + multiset{x}
    ensures |r| == |s| + 1 && (r[0] == x || (s != [] && r[0] == s[0]))
  {
    if s == [] || s[0].salary <= x.salary then
      [x] + s
    else
      assert s == [s[0]] + s[1..];
      [s[0]] + Insert(x, s[1..])
  }

  /** Insert keeps a descending sequence descending. */
  lemma {:induction false} InsertDescending(x: Ranked, s: seq<Ranked>)
    requires Descending(s)
    ensures Descending(Insert(x, s))
  {
    if s != [] && s[0].salary > x.salary {
      var rest := Insert(x, s[1..]);
      InsertDescending(x, s[1..]);
      var r := [s[0]] + rest;
      assert rest[0].salary <= s[0].salary;
      forall i, j | 0 <= i < j < |r| ensures r[i].salary >= r[j].salary {
        if i == 0 {
          assert r[j] == rest[j - 1];
        } else {
        }
      }
    }
  }

  /** Insert places x ahead of every entry that ties with it. */
  lemma {:induction false} InsertKeepsTies(x: Ranked, s: seq<Ranked>, k: int)
    ensures WithSalary(Insert(x, s), k) == WithSalary([x] + s, k)
  {
    if s == [] || s[0].salary <= x.salary {
    } else {
      InsertKeepsTies(x, s[1..], k);
      WithSalaryCons(s[0], Insert(x, s[1..]), k);
      WithSalaryCons(x, s, k);
      WithSalaryCons(s[0], s[1..], k);
      WithSalaryCons(x, s[1..], k);
    }
  }

  /**
   * Stream.sorted with the comparator comparing salaries in reverse: a stable
   * (order-preserving among ties) sort into descending salary.
   */
  function SortDescending(rs: seq<Ranked>): (s: seq<Ranked>)
    ensures StableDescendingOf(s, rs)
    ensures multiset(s) == multiset(rs)
  {
    if rs == [] then []
    else
      var sorted := SortDescending(rs[1..]);
      var s := Insert(rs[0], sorted);
      InsertDescending(rs[0], sorted);
      assert rs == [rs[0]] + rs[1..];
      forall k ensures WithSalary(s, k) == WithSalary(rs, k) {
        InsertKeepsTies(rs[0], sorted, k);
        WithSalaryCons(rs[0], sorted, k);
        WithSalaryCons(rs[0], rs[1..], k);
      }
      s
  }

  /** A stable descending arrangement of a sequence is unique: the sort is fully determined. */
  lemma {:induction false} StableDescendingUnique(a: seq<Ranked>, b: seq<Ranked>)
    requires Descending(a) && Descending(b)
    requires forall k :: WithSalary(a, k) == WithSalary(b, k)
    ensures a == b
  {
    if a == [] && b == [] {
    } else if a == [] {
      assert false;
    } else if b == [] {
      WithSalaryOf(a, 0);
    } else {
      var m := a[0].salary;
      WithSalaryOf(a, 0);
      WithSalaryOf(b, 0);
      WithSalaryMember(a, b[0].salary, WithSalary(a, b[0].salary)[0]);
      WithSalaryMember(b, m, WithSalary(b, m)[0]);
      assert b[0].salary == m;
      assert a == [a[0]] + a[1..];
      WithSalaryCons(a[0], a[1..], m);
      WithSalaryCons(b[0], b[1..], m);
      forall k ensures WithSalary(a[1..], k) == WithSalary(b[1..], k) {
        WithSalaryCons(a[0], a[1..], k);
        WithSalaryCons(b[0], b[1..], k);
        var head := if k == m then [a[0]] else [];
        assert WithSalary(a[1..], k) == (head + WithSalary(a[1..], k))[|head|..];
        assert WithSalary(b[1..], k) == (head + WithSalary(b[1..], k))[|head|..];
      }
      StableDescendingUnique(a[1..], b[1..]);
    }
  }

  /** What keeping the first n entries of a stable descending arrangement guarantees. */
  lemma StablePrefix(s: seq<Ranked>, rs: seq<Ranked>, n: nat)
    requires StableDescendingOf(s, rs) && multiset(s) == multiset(rs)
    requires 0 < n <= |s|
    ensures Descending(s[..n])
    ensures multiset(s[..n]) <= multiset(rs)
    ensures forall x :: x in multiset(rs) - multiset(s[..n]) ==> x.salary <= s[n - 1].salary
    ensures forall k :: WithSalary(s[..n], k) <= WithSalary(rs, k)
  {
    var top, rest := s[..n], s[n..];
    assert s == top + rest;
    assert multiset(s) == multiset(top) + multiset(rest);
    forall x | x in multiset(rs) - multiset(top) ensures x.salary <= s[n - 1].salary {
      assert x in rest;
    }
    forall k ensures WithSalary(top, k) <= WithSalary(rs, k) {
      WithSalaryAppend(top, rest, k);
    }
  }

  /**
   * top is a top-earner selection from rs: min(10, |rs|) entries taken from
   * rs, in descending order, none earning less than an entry left out.
   */
  predicate IsTopOf(top: seq<Ranked>, rs: seq<Ranked>) {
    && |top| == Min(TOP_LIMIT, |rs|)
    && Descending(top)
    && multiset(top) <= multiset(rs)
    && (|rs| > 0 ==> forall x :: x in multiset(rs) - multiset(top) ==> x.salary <= top[|top| - 1].salary)
  }

  /**
   * sorted(...).limit(10): the first min(10, |rs|) entries of the stable
   * descending arrangement of rs.
   */
  function TopEarners(rs: seq<Ranked>): (top: seq<Ranked>)
    ensures IsTopOf(top, rs)
  {
    var s := SortDescending(rs);
    assert |s| == |rs| by {
      assert |multiset(s)| == |multiset(rs)|;
    }
    var n := Min(TOP_LIMIT, |s|);
    if n == 0 then []
    else
      StablePrefix(s, rs, n);
      s[..n]
  }

  /**
   * The top earners are a prefix of the one stable descending arrangement of
   * rs, so among equal salaries they keep upstream order and the earliest win.
   */
  lemma TopEarnersStable(rs: seq<Ranked>)
    ensures exists s :: StableDescendingOf(s, rs) && TopEarners(rs) <= s
    ensures forall k :: WithSalary(TopEarners(rs), k) <= WithSalary(rs, k)
  {
    var s := SortDescending(rs);
    assert |s| == |rs| by {
      assert |multiset(s)| == |multiset(rs)|;
    }
    var n := Min(TOP_LIMIT, |s|);
    if n > 0 {
      StablePrefix(s, rs, n);
    }
  }

  /** The first of a top-earner selection earns at least as much as anyone. */
  lemma TopHead(top: seq<Ranked>, rs: seq<Ranked>)
    requires IsTopOf(top, rs) && |rs| > 0
    ensures top[0] in rs
    ensures forall x :: x in rs ==> x.salary <= top[0].salary
  {
    assert top[0] in multiset(rs);
    forall x | x in rs ensures x.salary <= top[0].salary {
      if x in multiset(top) {
        assert x in top;
      } else {
        assert x in multiset(rs) - multiset(top);
      }
    }
  }

  /** The first of a top-earner selection earns the maximum salary. */
  lemma TopLeaderEarnsMax(top: seq<Ranked>, rs: seq<Ranked>)
    requires IsTopOf(top, rs) && |rs| > 0
    ensures top[0] in rs
    ensures top[0].salary == MaxSalary(rs)
  {
    TopHead(top, rs);
    var k :| 0 <= k < |rs| && rs[k].salary == MaxSalary(rs);
    assert rs[k].salary <= top[0].salary;
    var j :| 0 <= j < |rs| && rs[j] == top[0];
  }

  /** Whoever earns more than a kept entry is kept too. */
  lemma TopKeepsHigher(top: seq<Ranked>, rs: seq<Ranked>, x: Ranked, y: Ranked)
    requires IsTopOf(top, rs)
    requires x in top && y in rs && y.salary > x.salary
    ensures y in top
  {
    var i :| 0 <= i < |top| && top[i] == x;
    var last := top[|top| - 1];
    assert last.salary <= x.salary;
    var omitted := multiset(rs) - multiset(top);
    assert y !in omitted;
    assert multiset(rs)[y] > 0;
  }

  /** An entry whose salary no other entry reaches heads every top-earner selection. */
  lemma TopHeadUnique(top: seq<Ranked>, rs: seq<Ranked>, i: nat)
    requires IsTopOf(top, rs) && i < |rs|
    requires forall j :: 0 <= j < |rs| && j != i ==> rs[j].salary < rs[i].salary
    ensures top[0] == rs[i]
  {
    TopHead(top, rs);
    assert rs[i].salary <= top[0].salary;
    var j :| 0 <= j < |rs| && rs[j] == top[0];
  }

  /** An entry occurring once in rs, at index i. */
  lemma OccursOnce(rs: seq<Ranked>, i: nat)
    requires i < |rs|
    requires forall j :: 0 <= j < |rs| && j != i ==> rs[j] != rs[i]
    ensures multiset(rs)[rs[i]] == 1
  {
    assert rs == rs[..i] + [rs[i]] + rs[i + 1..];
    assert rs[i] !in rs[..i];
    assert rs[i] !in rs[i + 1..];
  }

  /**
   * When more than TOP_LIMIT entries compete, one that earns strictly less
   * than every other entry is left out.
   */
  lemma TopDropsUniqueLowest(top: seq<Ranked>, rs: seq<Ranked>, i: nat)
    requires IsTopOf(top, rs) && TOP_LIMIT < |rs| && i < |rs|
    requires forall j :: 0 <= j < |rs| && j != i ==> rs[j].salary > rs[i].salary
    ensures rs[i] !in top
  {
    if rs[i] in top {
      var k :| 0 <= k < |top| && top[k] == rs[i];
      var last := top[|top| - 1];
      assert last.salary <= rs[i].salary;
      var omitted := multiset(rs) - multiset(top);
      assert multiset(rs) == multiset(top) + omitted;
      assert |omitted| > 0;
      var x :| x in omitted;
      assert x.salary <= last.salary;
      assert x in rs;
      OccursOnce(rs, i);
      assert false;
    }
  }

  /** map(Employee::getEmployeeName) */
  function Names(rs: seq<Ranked>): (names: seq<string>)
    ensures |names| == |rs|
    ensures forall i :: 0 <= i < |rs| ==> names[i] == rs[i].employee.employeeName
  {
    if rs == [] then [] else [rs[0].employee.employeeName] + Names(rs[1..])
  }
}
