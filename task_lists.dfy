/**
 * One column of the board: an ordered list of tasks, and the three array
 * operations the board performs on it (`filter` by id, `find` by id, append).
 */
module TaskLists {
  import opened Wrappers

  /** A task card: its identifier and the text the user typed. */
  datatype Task = Task(id: string, content: string)

  /** The identifiers occurring in a list. */
  function Ids(l: seq<Task>): set<string> {
    set t | t in l :: t.id
  }

  /** No identifier occurs twice in the list. */
  predicate DistinctIds(l: seq<Task>) {
    forall i, j :: 0 <= i < j < |l| ==> l[i].id != l[j].id
  }

  /** How many tasks of the list carry identifier `id`. */
  function CountId(l: seq<Task>, id: string): nat {
    if l == [] then 0 else (if l[0].id == id then 1 else 0) + CountId(l[1..], id)
  }

  /**
   * `l.filter(t => t.id !== id)`: keeps, in order, every task whose identifier
   * differs from `id`, and drops all that carry it.
   */
  function WithoutId(l: seq<Task>, id: string): (r: seq<Task>)
    ensures forall t :: t in r <==> t in l && t.id != id
    ensures |r| + CountId(l, id) == |l|
  {
    if l == [] then [] else (if l[0].id != id then [l[0]] else []) + WithoutId(l[1..], id)
  }

  /** On one task the filter keeps it exactly when its identifier differs. */
  lemma WithoutIdSingle(t: Task, id: string)
    ensures WithoutId([t], id) == if t.id != id then [t] else []
  {
    assert [t][1..] == [];
  }

  /** The filter distributes over concatenation, so it keeps the order and multiplicity of what it keeps. */
  lemma {:induction false} WithoutIdConcat(a: seq<Task>, c: seq<Task>, id: string)
    ensures WithoutId(a + c, id) == WithoutId(a, id) + WithoutId(c, id)
  {
    if a == [] {
      assert a + c == c;
    } else {
      assert (a + c)[1..] == a[1..] + c;
      WithoutIdConcat(a[1..], c, id);
    }
  }

  /** `l.find(t => t.id === id)`: the first task carrying `id`, if any. */
  function Find(l: seq<Task>, id: string): (r: Option<Task>)
    ensures r.None? <==> id !in Ids(l)
    ensures r.Some? ==> r.value in l && r.value.id == id
  {
    if l == [] then None else if l[0].id == id then Some(l[0]) else Find(l[1..], id)
  }

  /** `find` returns the task at the first index carrying `id`. */
  lemma {:induction false} FindFirst(l: seq<Task>, id: string, i: nat)
    requires i < |l| && l[i].id == id
    requires forall j :: 0 <= j < i ==> l[j].id != id
    ensures Find(l, id) == Some(l[i])
  {
    if i > 0 {
      assert l[1..][i - 1] == l[i];
      FindFirst(l[1..], id, i - 1);
    }
  }

  /** With distinct identifiers, `find` returns the one task that carries `id`. */
  lemma FindUnique(l: seq<Task>, id: string, i: nat)
    requires DistinctIds(l)
    requires i < |l| && l[i].id == id
    ensures Find(l, id) == Some(l[i])
  {
    FindFirst(l, id, i);
  }

  /** The identifiers left after the filter are the old ones without `id`. */
  lemma WithoutIdIds(l: seq<Task>, id: string)
    ensures Ids(WithoutId(l, id)) == Ids(l) - {id}
  {
    var r := WithoutId(l, id);
    forall x | x in Ids(l) - {id} ensures x in Ids(r) {
      var t :| t in l && t.id == x;
      assert t in r;
    }
  }

  /** Filtering out an identifier that does not occur changes nothing. */
  lemma {:induction false} WithoutAbsentId(l: seq<Task>, id: string)
    requires id !in Ids(l)
    ensures WithoutId(l, id) == l
  {
    if l != [] {
      assert l[0] in l;
      assert Ids(l[1..]) <= Ids(l) by {
        forall x | x in Ids(l[1..]) ensures x in Ids(l) {
          var t :| t in l[1..] && t.id == x;
          assert t in l;
        }
      }
      WithoutAbsentId(l[1..], id);
      assert [l[0]] + l[1..] == l;
    }
  }

  /** The identifier occurs in the list exactly when it is counted at least once. */
  lemma {:induction false} CountIdPositive(l: seq<Task>, id: string)
    ensures CountId(l, id) > 0 <==> id in Ids(l)
  {
    if l != [] {
      CountIdPositive(l[1..], id);
      assert l[0] in l;
      assert forall t :: t in l ==> t == l[0] || t in l[1..];
      assert forall t :: t in l[1..] ==> t in l;
    }
  }

  /** With distinct identifiers an identifier is counted at most once. */
  lemma {:induction false} CountIdDistinct(l: seq<Task>, id: string)
    requires DistinctIds(l)
    ensures CountId(l, id) <= 1
  {
    if l != [] {
      CountIdDistinct(l[1..], id);
      if l[0].id == id {
        forall k | 0 <= k < |l[1..]| ensures l[1..][k].id != id {
          assert l[1..][k] == l[k + 1];
        }
        CountIdPositive(l[1..], id);
      }
    }
  }

  /** Putting a task in front of a list keeps identifiers distinct when its identifier is new. */
  lemma DistinctCons(t: Task, l: seq<Task>)
    requires DistinctIds(l) && t.id !in Ids(l)
    ensures DistinctIds([t] + l)
  {
    var r := [t] + l;
    forall i, j | 0 <= i < j < |r| ensures r[i].id != r[j].id {
      assert r[j] == l[j - 1];
      if i > 0 {
        assert r[i] == l[i - 1];
      } else {
        assert r[j] in l;
      }
    }
  }

  /** The filter keeps identifiers distinct. */
  lemma {:induction false} WithoutIdDistinct(l: seq<Task>, id: string)
    requires DistinctIds(l)
    ensures DistinctIds(WithoutId(l, id))
  {
    if l != [] {
      var tail := l[1..];
      assert DistinctIds(tail) by {
        forall i, j | 0 <= i < j < |tail| ensures tail[i].id != tail[j].id {
          assert tail[i] == l[i + 1] && tail[j] == l[j + 1];
        }
      }
      WithoutIdDistinct(tail, id);
      if l[0].id != id {
        WithoutIdIds(tail, id);
        forall k | 0 <= k < |tail| ensures tail[k].id != l[0].id {
          assert tail[k] == l[k + 1];
        }
        DistinctCons(l[0], WithoutId(tail, id));
      }
    }
  }

  /** Concatenated lists have distinct identifiers exactly when each has and none is shared. */
  lemma DistinctConcat(a: seq<Task>, b: seq<Task>)
    ensures DistinctIds(a + b) <==> DistinctIds(a) && DistinctIds(b) && Ids(a) !! Ids(b)
  {
    var c := a + b;
    if DistinctIds(c) {
      assert DistinctIds(a) by {
        forall i, j | 0 <= i < j < |a| ensures a[i].id != a[j].id {
          assert c[i] == a[i] && c[j] == a[j];
        }
      }
      assert DistinctIds(b) by {
        forall i, j | 0 <= i < j < |b| ensures b[i].id != b[j].id {
          assert c[|a| + i] == b[i] && c[|a| + j] == b[j];
        }
      }
      forall s, t | s in a && t in b ensures s.id != t.id {
        var i :| 0 <= i < |a| && a[i] == s;
        var j :| 0 <= j < |b| && b[j] == t;
        assert c[i] == s && c[|a| + j] == t;
      }
    }
    if DistinctIds(a) && DistinctIds(b) && Ids(a) !! Ids(b) {
      forall i, j | 0 <= i < j < |c| ensures c[i].id != c[j].id {
        if j < |a| {
          assert c[i] == a[i] && c[j] == a[j];
        } else if i >= |a| {
          assert c[i] == b[i - |a|] && c[j] == b[j - |a|];
        } else {
          assert c[i] == a[i] && c[j] == b[j - |a|];
          assert c[i].id in Ids(a) && c[j].id in Ids(b);
        }
      }
    }
  }
}
