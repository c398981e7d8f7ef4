/** Vocabulary shared by every part of the model: optional values, the HTTP
    status a controller action answers with, and ordered listings of the
    primary keys of a table (what an SQL query without ORDER BY returns). */
module Common {

  datatype Option<+T> = None | Some(value: T)

  /** The HTTP status of a response: 200, 201, 422, 403, 404, 409 and 500. */
  datatype Status = Ok | Created | Unprocessable | Forbidden | NotFound | Conflict | ServerError

  /** The answer of a read-only action: a JSON body, or an error status. */
  datatype Reply<+T> = Success(body: T) | Failure(status: Status)

  ghost predicate Increasing(s: seq<nat>) {
    forall i, j :: 0 <= i < j < |s| ==> s[i] < s[j]
  }

  ghost predicate Distinct<T>(s: seq<T>) {
    forall i, j :: 0 <= i < j < |s| ==> s[i] != s[j]
  }

  predicate IsLeast(k: nat, s: set<nat>) {
    k in s && forall j :: j in s ==> k <= j
  }

  lemma {:induction false} LeastExists(s: set<nat>)
    requires s != {}
    ensures exists k :: IsLeast(k, s)
  {
    var x :| x in s;
    if s == {x} {
      assert IsLeast(x, s);
    } else {
      LeastExists(s - {x});
      var k :| IsLeast(k, s - {x});
      var least := if x < k then x else k;
      forall j | j in s
        ensures least <= j
      {
        if j != x {
          assert j in s - {x};
        }
      }
      assert IsLeast(least, s);
    }
  }

  /** The smallest primary key of a non-empty key set. */
  function Least(s: set<nat>): (k: nat)
    requires s != {}
    ensures k in s && forall j :: j in s ==> k <= j
  {
    LeastExists(s);
    var k :| IsLeast(k, s);
    k
  }

  /** The keys of the rows of `m` that satisfy `p`, in ascending key order:
      a `where` query over a table whose primary key is auto-incremented. */
  function KeysWhere<V>(m: map<nat, V>, p: V -> bool): (r: seq<nat>)
    ensures Increasing(r)
    ensures forall k :: k in r <==> k in m && p(m[k])
    decreases m
  {
    if m.Keys == {} then []
    else
      var k := Least(m.Keys);
      var rest := KeysWhere(m - {k}, p);
      assert forall i :: 0 <= i < |rest| ==> k < rest[i] by {
        forall i | 0 <= i < |rest| ensures k < rest[i] {
          assert rest[i] in m - {k};
        }
      }
      if p(m[k]) then [k] + rest else rest
  }

  /** A listing in ascending key order is determined by which keys it holds. */
  lemma {:induction false} IncreasingUnique(a: seq<nat>, b: seq<nat>)
    requires Increasing(a) && Increasing(b)
    requires forall x :: x in a <==> x in b
    ensures a == b
  {
    if a != [] {
      assert a[0] in b;
    }
    if b != [] {
      assert b[0] in a;
    }
    if a != [] && b != [] {
      assert a[0] in b && b[0] in a;
      var i :| 0 <= i < |b| && b[i] == a[0];
      var j :| 0 <= j < |a| && a[j] == b[0];
      assert a[0] == b[0];
      forall x
        ensures x in a[1..] <==> x in b[1..]
      {
        if x in a[1..] {
          var k :| 1 <= k < |a| && a[k] == x;
          assert x in b && x != b[0];
        }
        if x in b[1..] {
          var k :| 1 <= k < |b| && b[k] == x;
          assert x in a && x != a[0];
        }
      }
      IncreasingUnique(a[1..], b[1..]);
      assert a == [a[0]] + a[1..] && b == [b[0]] + b[1..];
    }
  }
}
