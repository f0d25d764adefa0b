/** Small vocabulary shared by every module of the model. */
module Base {
  datatype Option<+T> = None | Some(value: T)

  /** Row identifiers: opaque tokens, of which a fresh one can always be drawn. */
  type Id = nat

  ghost function Bound(used: set<Id>): (n: Id)
    ensures forall id :: id in used ==> id < n
  {
    if used == {} then 0
    else
      var x :| x in used;
      var n := Bound(used - {x});
      assert forall id :: id in used ==> id == x || id in used - {x};
      if x < n then n else x + 1
  }

  lemma FreshExists(used: set<Id>)
    ensures exists id: Id :: id !in used
  {
    var bound := Bound(used);
    assert bound !in used;
  }

  /** A random 128-bit identifier that no row of the table in question uses yet. */
  method NewId(used: set<Id>) returns (id: Id)
    ensures id !in used
  {
    FreshExists(used);
    id :| id !in used;
  }

  ghost predicate Distinct<T(!new)>(q: seq<T>) {
    forall i, j :: 0 <= i < j < |q| ==> q[i] != q[j]
  }

  ghost function Members<T>(q: seq<T>): set<T> {
    set x | x in q
  }

  lemma NoMembers<T>(q: seq<T>)
    ensures q == [] <==> Members(q) == {}
  {
    if q != [] { assert q[0] in Members(q); }
  }

  lemma MembersGrow<T>(q: seq<T>, i: nat)
    requires i < |q|
    ensures Members(q[..i + 1]) == Members(q[..i]) + {q[i]}
  {
    assert q[..i + 1] == q[..i] + [q[i]];
  }

  /** Going through distinct rows one by one: each is new when its turn comes, and in the end all were there. */
  lemma RowTurn<T(!new)>(q: seq<T>, i: nat)
    requires i < |q| && Distinct(q)
    ensures Members(q[..i + 1]) == Members(q[..i]) + {q[i]} && q[i] !in Members(q[..i]) && q[i] in Members(q)
  {
    MembersGrow(q, i);
  }

  lemma AllRows<T>(q: seq<T>)
    ensures Members(q[..0]) == {} && Members(q[..|q|]) == Members(q)
  {
    assert q[..|q|] == q;
  }

  /** The rows of an unordered query result, in whatever order the database yields them. */
  method Rows<T(==, !new)>(s: set<T>) returns (q: seq<T>)
    ensures forall x :: x in q <==> x in s
    ensures Distinct(q)
  {
    q := [];
    var rest := s;
    while rest != {}
      invariant forall x :: x in s <==> x in q || x in rest
      invariant forall x :: x in q ==> x !in rest
      invariant Distinct(q)
      decreases rest
    {
      var x :| x in rest;
      q := q + [x];
      rest := rest - {x};
    }
  }

  lemma {:induction false} DistinctFits<T(!new)>(q: seq<T>, s: set<T>)
    requires Distinct(q) && forall x :: x in q ==> x in s
    ensures |q| <= |s|
  {
    if q != [] {
      var last := q[|q| - 1];
      forall x | x in q[..|q| - 1] ensures x in s - {last} {
      }
      DistinctFits(q[..|q| - 1], s - {last});
    }
  }

  lemma DistinctAppend<T(!new)>(q: seq<T>, r: seq<T>)
    requires Distinct(q) && Distinct(r) && forall x :: x in r ==> x !in q
    ensures Distinct(q + r)
  {
    forall i, j | 0 <= i < j < |q + r| ensures (q + r)[i] != (q + r)[j] {
      if i < |q| <= j { assert r[j - |q|] in r; }
    }
  }

  lemma SubsetGrows<T>(s: set<T>, t: set<T>, x: T)
    requires s <= t && x in t
    ensures s + {x} <= t
  {
  }

  lemma EmptyUnion<T>(s: set<T>)
    ensures s + {} == s && {} + s == s
  {
  }

  lemma UnionGrows<T>(s: set<T>, t: set<T>, x: T)
    requires x !in s && x !in t
    ensures (s + t) + {x} == s + (t + {x}) && x !in s + t
  {
  }

  ghost function DropAt<T>(q: seq<T>, j: nat): seq<T>
    requires j < |q|
  {
    q[..j] + q[j + 1..]
  }

  lemma DropAtMembers<T(!new)>(q: seq<T>, j: nat)
    requires j < |q| && Distinct(q)
    ensures Distinct(DropAt(q, j)) && Members(DropAt(q, j)) == Members(q) - {q[j]}
  {
    var left := DropAt(q, j);
    forall x ensures x in left <==> x in q && x != q[j] {
      if x in q && x != q[j] {
        var k :| 0 <= k < |q| && q[k] == x;
        assert left[if k < j then k else k - 1] == x;
      }
    }
  }

  lemma DropAtMultiset<T>(q: seq<T>, j: nat)
    requires j < |q|
    ensures multiset(q) == multiset(DropAt(q, j)) + multiset{q[j]}
  {
    assert q == q[..j] + [q[j]] + q[j + 1..];
  }

  /** A sweep over a map, which drops the keys `ends`, takes the next key. */
  lemma NextKey<K, V>(m: map<K, V>, ends: set<K>, todo: set<K>, k: K)
    requires todo <= m.Keys && k in todo
    ensures k in m - (ends - todo) && (m - (ends - todo))[k] == m[k]
    ensures m - (ends - (todo - {k})) == if k in ends then (m - (ends - todo)) - {k} else m - (ends - todo)
    ensures todo - {k} < todo && todo - {k} <= m.Keys
  {
  }

  lemma SweepStarts<K, V>(m: map<K, V>, ends: set<K>)
    requires ends <= m.Keys
    ensures m - (ends - m.Keys) == m
  {
  }

  lemma SweepEnds<K, V>(m: map<K, V>, ends: set<K>)
    ensures m - (ends - {}) == m - ends
  {
    assert ends - {} == ends;
  }

  lemma MapMinus<K, V>(m: map<K, V>, gone: set<K>, k: K)
    ensures (m - gone) - {k} == m - (gone + {k})
  {
  }
}
