/** The per-column chain invariant of the ticket table and the sequence-level
    meaning of the pointer rewrites.

    A column's listing is a sequence of ids `L`: `L[0]` is the column's root
    ticket, each ticket's `nextId` names the one after it in `L`, the last one
    has no successor, no id repeats, and every ticket of that status is in `L`. */
module Chains {
  import opened Tickets
  import opened TicketRepository

  /** The successor `L` gives to its `i`-th element. */
  function Succ(L: seq<Id>, i: nat): Option<Id>
    requires i < |L|
  {
    if i + 1 < |L| then Some(L[i + 1]) else None
  }

  ghost predicate Distinct(L: seq<Id>) {
    forall i, j :: 0 <= i < j < |L| ==> L[i] != L[j]
  }

  /** The pointers of `m` spell out `L`: exactly its first element is a root,
      and every element points at the next one (the last at nothing). Since the
      ids are distinct, the chain has no cycle and no fork. */
  ghost predicate ChainShape(m: Store, L: seq<Id>) {
    && |L| > 0
    && Distinct(L)
    && (forall i :: 0 <= i < |L| ==> L[i] in m)
    && forall i {:trigger m[L[i]]} :: 0 <= i < |L| ==>
         m[L[i]].isRoot == (i == 0) && m[L[i]].nextId == Succ(L, i)
  }

  /** `L` is the listing of column `s`: a chain that stays inside the column and
      visits every ticket of that status. */
  ghost predicate ChainOf(m: Store, s: Status, L: seq<Id>) {
    && ChainShape(m, L)
    && (forall i {:trigger m[L[i]]} :: 0 <= i < |L| ==> m[L[i]].status == s)
    && (forall k {:trigger m[k]} :: k in m && m[k].status == s ==> k in L)
  }

  /** The well-formed table: every column has a listing, and `cols` holds them. */
  ghost predicate Linked(m: Store, cols: map<Status, seq<Id>>) {
    && KeysMatch(m)
    && (forall s: Status :: s in cols)
    && forall s: Status {:trigger ChainOf(m, s, cols[s])} :: ChainOf(m, s, cols[s])
  }

  /** `L` without `x`. */
  function Remove(L: seq<Id>, x: Id): (r: seq<Id>)
    ensures forall y :: y in r <==> y in L && y != x
  {
    if L == [] then []
    else if L[0] == x then Remove(L[1..], x)
    else [L[0]] + Remove(L[1..], x)
  }

  /** `L` with `x` placed right after `a`. */
  function InsertAfter(L: seq<Id>, a: Id, x: Id): (r: seq<Id>)
    ensures a in L ==> forall y :: y in r <==> y in L || y == x
  {
    if L == [] then []
    else if L[0] == a then [a, x] + L[1..]
    else [L[0]] + InsertAfter(L[1..], a, x)
  }

  /** Removing an element that occurs once splices it out at its position. */
  lemma {:induction false} RemoveAt(L: seq<Id>, p: nat)
    requires Distinct(L) && p < |L|
    ensures Remove(L, L[p]) == L[..p] + L[p + 1..]
  {
    if p == 0 {
      RemoveAbsent(L[1..], L[0]);
    } else {
      assert Distinct(L[1..]) by {
        forall i, j | 0 <= i < j < |L| - 1 ensures L[1..][i] != L[1..][j] {
          assert L[i + 1] != L[j + 1];
        }
      }
      RemoveAt(L[1..], p - 1);
      assert L[1..][p - 1] == L[p];
      assert L == [L[0]] + L[1..];
      calc {
        Remove(L, L[p]);
        [L[0]] + Remove(L[1..], L[p]);
        [L[0]] + (L[1..][..p - 1] + L[1..][p..]);
        { assert L[1..][..p - 1] == L[1..p] && L[1..][p..] == L[p + 1..]; }
        [L[0]] + L[1..p] + L[p + 1..];
        { assert [L[0]] + L[1..p] == L[..p]; }
        L[..p] + L[p + 1..];
      }
    }
  }

  /** Removing an id that does not occur changes nothing. */
  lemma {:induction false} RemoveAbsent(L: seq<Id>, x: Id)
    requires x !in L
    ensures Remove(L, x) == L
  {
    if L != [] {
      RemoveAbsent(L[1..], x);
      assert L == [L[0]] + L[1..];
    }
  }

  /** Inserting after an element that occurs once places the new id right behind it. */
  lemma {:induction false} InsertAfterAt(L: seq<Id>, q: nat, x: Id)
    requires Distinct(L) && q < |L|
    ensures InsertAfter(L, L[q], x) == L[..q + 1] + [x] + L[q + 1..]
  {
    if q == 0 {
      assert L[..1] == [L[0]];
    } else {
      assert Distinct(L[1..]) by {
        forall i, j | 0 <= i < j < |L| - 1 ensures L[1..][i] != L[1..][j] {
          assert L[i + 1] != L[j + 1];
        }
      }
      assert L[0] != L[q];
      InsertAfterAt(L[1..], q - 1, x);
      assert L[1..][q - 1] == L[q];
      assert L[1..][..q] == L[1..q + 1] && L[1..][q..] == L[q + 1..];
      assert [L[0]] + L[1..q + 1] == L[..q + 1];
    }
  }

  lemma SpliceShape(m: Store, L: seq<Id>, p: nat)
    requires ChainShape(m, L) && 0 < p < |L|
    ensures ChainShape(m[L[p - 1] := m[L[p - 1]].(nextId := m[L[p]].nextId)], L[..p] + L[p + 1..])
  {
    var m' := m[L[p - 1] := m[L[p - 1]].(nextId := m[L[p]].nextId)];
    var L' := L[..p] + L[p + 1..];
    SpliceDistinct(L, p);
    forall i | 0 <= i < |L'| ensures L'[i] in m' {
      SpliceIndex(L, p, i);
    }
    forall i | 0 <= i < |L'|
      ensures m'[L'[i]].isRoot == (i == 0) && m'[L'[i]].nextId == Succ(L', i)
    {
      SpliceAt(m, L, p, i);
    }
  }

  lemma SpliceIndex(L: seq<Id>, p: nat, i: nat)
    requires p < |L| && i < |L| - 1
    ensures (L[..p] + L[p + 1..])[i] == if i < p then L[i] else L[i + 1]
  {
  }

  lemma SpliceDistinct(L: seq<Id>, p: nat)
    requires Distinct(L) && p < |L|
    ensures Distinct(L[..p] + L[p + 1..])
  {
    var L' := L[..p] + L[p + 1..];
    forall i, j | 0 <= i < j < |L'| ensures L'[i] != L'[j] {
      SpliceIndex(L, p, i);
      SpliceIndex(L, p, j);
      var i0 := if i < p then i else i + 1;
      var j0 := if j < p then j else j + 1;
      assert L[i0] != L[j0];
    }
  }

  lemma SpliceAt(m: Store, L: seq<Id>, p: nat, i: nat)
    requires ChainShape(m, L) && 0 < p < |L| && i < |L| - 1
    ensures var m' := m[L[p - 1] := m[L[p - 1]].(nextId := m[L[p]].nextId)];
            var L' := L[..p] + L[p + 1..];
            L'[i] in m' && m'[L'[i]].isRoot == (i == 0) && m'[L'[i]].nextId == Succ(L', i)
  {
    var L' := L[..p] + L[p + 1..];
    var m' := m[L[p - 1] := m[L[p - 1]].(nextId := m[L[p]].nextId)];
    SpliceIndex(L, p, i);
    var k := L'[i];
    if i < p - 1 {
      assert k == L[i] != L[p - 1];
      assert m'[k] == m[k];
      assert m[L[i]].nextId == Succ(L, i);
      SpliceIndex(L, p, i + 1);
      assert Succ(L', i) == Some(L[i + 1]);
    } else if i == p - 1 {
      assert k == L[p - 1];
      assert m'[k].nextId == m[L[p]].nextId;
      assert m[L[p]].nextId == Succ(L, p);
      assert m'[k].isRoot == m[L[p - 1]].isRoot;
      if i + 1 < |L'| {
        SpliceIndex(L, p, i + 1);
        assert Succ(L', i) == Some(L[p + 1]) == Succ(L, p);
      } else {
        assert Succ(L', i) == None == Succ(L, p);
      }
    } else {
      assert k == L[i + 1] != L[p - 1];
      assert m'[k] == m[k];
      assert m[L[i + 1]].nextId == Succ(L, i + 1);
      if i + 1 < |L'| {
        SpliceIndex(L, p, i + 1);
        assert Succ(L', i) == Some(L[i + 2]);
      }
    }
  }

  /** Linking `x` in after the element at position `q`: `x` takes over that
      element's successor and that element points at `x`. */
  lemma LinkShape(m: Store, L: seq<Id>, q: nat, x: Id)
    requires ChainShape(m, L) && q < |L| && x in m && x !in L && !m[x].isRoot
    ensures var m1 := m[x := m[x].(nextId := m[L[q]].nextId)];
            ChainShape(m1[L[q] := m1[L[q]].(nextId := Some(x))], L[..q + 1] + [x] + L[q + 1..])
  {
    var m1 := m[x := m[x].(nextId := m[L[q]].nextId)];
    var m2 := m1[L[q] := m1[L[q]].(nextId := Some(x))];
    var L' := L[..q + 1] + [x] + L[q + 1..];
    LinkDistinct(L, q, x);
    forall i | 0 <= i < |L'| ensures L'[i] in m2 {
      LinkIndex(L, q, x, i);
    }
    forall i | 0 <= i < |L'|
      ensures m2[L'[i]].isRoot == (i == 0) && m2[L'[i]].nextId == Succ(L', i)
    {
      LinkAt(m, L, q, x, i);
    }
  }

  lemma LinkIndex(L: seq<Id>, q: nat, x: Id, i: nat)
    requires q < |L| && i <= |L|
    ensures (L[..q + 1] + [x] + L[q + 1..])[i] == if i <= q then L[i] else if i == q + 1 then x else L[i - 1]
  {
  }

  lemma LinkDistinct(L: seq<Id>, q: nat, x: Id)
    requires Distinct(L) && q < |L| && x !in L
    ensures Distinct(L[..q + 1] + [x] + L[q + 1..])
  {
    var L' := L[..q + 1] + [x] + L[q + 1..];
    forall i, j | 0 <= i < j < |L'| ensures L'[i] != L'[j] {
      LinkIndex(L, q, x, i);
      LinkIndex(L, q, x, j);
      if i != q + 1 && j != q + 1 {
        var i0 := if i <= q then i else i - 1;
        var j0 := if j <= q then j else j - 1;
        assert L[i0] != L[j0];
      }
    }
  }

  lemma LinkAt(m: Store, L: seq<Id>, q: nat, x: Id, i: nat)
    requires ChainShape(m, L) && q < |L| && x in m && x !in L && !m[x].isRoot && i <= |L|
    ensures var m1 := m[x := m[x].(nextId := m[L[q]].nextId)];
            var m2 := m1[L[q] := m1[L[q]].(nextId := Some(x))];
            var L' := L[..q + 1] + [x] + L[q + 1..];
            m2[L'[i]].isRoot == (i == 0) && m2[L'[i]].nextId == Succ(L', i)
  {
    var m1 := m[x := m[x].(nextId := m[L[q]].nextId)];
    var m2 := m1[L[q] := m1[L[q]].(nextId := Some(x))];
    var L' := L[..q + 1] + [x] + L[q + 1..];
    LinkIndex(L, q, x, i);
    if i + 1 < |L'| { LinkIndex(L, q, x, i + 1); }
    var k := L'[i];
    if i < q {
      assert k == L[i] != L[q] && k != x;
      assert m2[k] == m[k];
      assert m[L[i]].nextId == Succ(L, i);
      assert Succ(L', i) == Some(L[i + 1]);
    } else if i == q {
      assert k == L[q] != x;
      assert m2[k].nextId == Some(x) && m2[k].isRoot == m[L[q]].isRoot;
      assert Succ(L', i) == Some(x);
    } else if i == q + 1 {
      assert k == x;
      assert m2[x] == m[x].(nextId := m[L[q]].nextId);
      assert m[L[q]].nextId == Succ(L, q);
      if q + 1 < |L| {
        assert Succ(L', i) == Some(L[q + 1]);
      }
    } else {
      assert k == L[i - 1] != L[q] && k != x;
      assert m2[k] == m[k];
      assert m[L[i - 1]].nextId == Succ(L, i - 1);
      if i < |L| {
        assert Succ(L', i) == Some(L[i]);
      }
    }
  }

  /** A chain survives every change that leaves its own tickets' pointers and
      root marks alone. */
  lemma ShapeFrame(m: Store, m': Store, L: seq<Id>)
    requires ChainShape(m, L)
    requires forall k :: k in L ==> k in m' && m'[k].nextId == m[k].nextId && m'[k].isRoot == m[k].isRoot
    ensures ChainShape(m', L)
  {
    forall i | 0 <= i < |L| ensures L[i] in m' && m'[L[i]].isRoot == (i == 0) && m'[L[i]].nextId == Succ(L, i) {
      assert L[i] in L;
    }
  }

  /** A column listing survives every change that leaves its tickets alone
      and brings no new ticket into the column. */
  lemma ColumnFrame(m: Store, m': Store, s: Status, L: seq<Id>)
    requires ChainOf(m, s, L)
    requires forall k :: k in L ==> k in m' && m'[k] == m[k]
    requires forall k :: k in m' && m'[k].status == s ==> k in m && m[k] == m'[k]
    ensures ChainOf(m', s, L)
  {
    ShapeFrame(m, m', L);
    forall i | 0 <= i < |L| ensures m'[L[i]].status == s {
      assert L[i] in L;
    }
  }

  /** In a well-formed table every ticket sits in the listing of its own status. */
  lemma LinkedPosition(m: Store, cols: map<Status, seq<Id>>, k: Id) returns (i: nat)
    requires Linked(m, cols) && k in m
    ensures i < |cols[m[k].status]| && cols[m[k].status][i] == k
  {
    assert ChainOf(m, m[k].status, cols[m[k].status]);
    i :| 0 <= i < |cols[m[k].status]| && cols[m[k].status][i] == k;
  }

  /** In a well-formed table a ticket is in a column's listing exactly when it
      has that column's status. */
  lemma LinkedColumnOf(m: Store, cols: map<Status, seq<Id>>, k: Id, s: Status)
    requires Linked(m, cols) && k in m
    ensures m[k].status == s <==> k in cols[s]
  {
    assert ChainOf(m, s, cols[s]);
    if k in cols[s] {
      var j :| 0 <= j < |cols[s]| && cols[s][j] == k;
      assert m[cols[s][j]].status == s;
    }
  }

  /** A ticket that points at `x` sits right before `x` in their common column. */
  lemma LinkedSuccessor(m: Store, cols: map<Status, seq<Id>>, j: Id, x: Id) returns (i: nat)
    requires Linked(m, cols) && j in m && m[j].nextId == Some(x)
    ensures x in m && m[x].status == m[j].status
    ensures i + 1 < |cols[m[j].status]| && cols[m[j].status][i] == j && cols[m[j].status][i + 1] == x
  {
    i := LinkedPosition(m, cols, j);
    var L := cols[m[j].status];
    assert ChainOf(m, m[j].status, L);
    assert m[L[i]].nextId == Succ(L, i);
  }

  lemma LinkedNoFork(m: Store, cols: map<Status, seq<Id>>, x: Id)
    requires Linked(m, cols)
    ensures AtMostOnePredecessor(m, x)
  {
    forall j, k | j in m && k in m && m[j].nextId == Some(x) && m[k].nextId == Some(x) ensures j == k {
      NoForkPair(m, cols, j, k, x);
    }
  }

  lemma NoForkPair(m: Store, cols: map<Status, seq<Id>>, j: Id, k: Id, x: Id)
    requires Linked(m, cols)
    requires j in m && k in m && m[j].nextId == Some(x) && m[k].nextId == Some(x)
    ensures j == k
  {
    var ij := LinkedSuccessor(m, cols, j, x);
    var ik := LinkedSuccessor(m, cols, k, x);
    LinkedDistinct(m, cols, m[x].status);
    DistinctAt(cols[m[x].status], ij, ik);
  }

  /** A column listing repeats no id. */
  lemma LinkedDistinct(m: Store, cols: map<Status, seq<Id>>, s: Status)
    requires Linked(m, cols)
    ensures Distinct(cols[s])
  {
    assert ChainOf(m, s, cols[s]);
  }

  /** Two positions of a repetition-free sequence whose successors agree are equal. */
  lemma DistinctAt(L: seq<Id>, a: nat, b: nat)
    requires Distinct(L) && a + 1 < |L| && b + 1 < |L| && L[a + 1] == L[b + 1]
    ensures a == b
  {
  }

  /** The left neighbour the service looks up is the previous element of the
      listing, and the root has none. */
  lemma LinkedPredecessor(m: Store, cols: map<Status, seq<Id>>, s: Status, p: nat)
    requires Linked(m, cols) && p < |cols[s]|
    ensures AtMostOnePredecessor(m, cols[s][p])
    ensures p == 0 ==> FindByNextId(m, cols[s][p]) == None
    ensures p > 0 ==> cols[s][p - 1] in m && FindByNextId(m, cols[s][p]) == Some(m[cols[s][p - 1]])
  {
    var L := cols[s];
    assert ChainOf(m, s, L);
    LinkedNoFork(m, cols, L[p]);
    if p == 0 {
      forall k | k in m ensures m[k].nextId != Some(L[0]) {
        var i := LinkedPosition(m, cols, k);
        var Lk := cols[m[k].status];
        assert ChainOf(m, m[k].status, Lk);
        assert m[Lk[i]].nextId == Succ(Lk, i);
        if i + 1 < |Lk| {
          assert !m[Lk[i + 1]].isRoot && m[L[0]].isRoot;
        }
      }
    } else {
      assert m[L[p - 1]].nextId == Succ(L, p - 1) == Some(L[p]);
    }
  }

  /** The column tail the service looks up is the last element of the listing. */
  lemma LinkedTail(m: Store, cols: map<Status, seq<Id>>, s: Status)
    requires Linked(m, cols)
    ensures AtMostOneWith(m, None, s)
    ensures |cols[s]| > 0 && cols[s][|cols[s]| - 1] in m
    ensures FindByNextIdAndStatus(m, None, s) == Some(m[cols[s][|cols[s]| - 1]])
  {
    var L := cols[s];
    assert ChainOf(m, s, L);
    forall k | k in m && m[k].nextId == None && m[k].status == s ensures k == L[|L| - 1] {
      var i := LinkedPosition(m, cols, k);
      assert m[L[i]].nextId == Succ(L, i);
    }
    assert m[L[|L| - 1]].nextId == Succ(L, |L| - 1);
  }
}
