/** What moveTicket does to the column listings of a well-formed table: the
    moved ticket leaves its place and reappears right after the anchor, in the
    anchor's column, and every other ticket keeps its relative order. */
module Moves {
  import opened Tickets
  import opened TicketRepository
  import opened Chains
  import opened Relink

  /** A column listing is pinned down by the statuses: once a chain is in
      place, `L` lists column `s` exactly when the tickets of status `s` are
      the members of `L`. */
  lemma ChainOfMembers(m: Store, s: Status, L: seq<Id>)
    requires ChainShape(m, L)
    requires forall k :: k in m ==> (m[k].status == s <==> k in L)
    ensures ChainOf(m, s, L)
  {
    forall i | 0 <= i < |L| ensures m[L[i]].status == s {
      assert L[i] in L;
    }
  }

  /** Inside one column: splice `L[p]` out, then link it in after the element
      at position `q` of the shortened listing. */
  lemma MoveWithinShape(m: Store, L: seq<Id>, p: nat, q: nat)
    requires ChainShape(m, L) && 0 < p < |L| && q < |L| - 1
    ensures var x := L[p];
            var L' := L[..p] + L[p + 1..];
            var m1 := WithNext(m, L[p - 1], m[x].nextId);
            var m2 := WithNext(m1, x, m1[L'[q]].nextId);
            ChainShape(WithNext(m2, L'[q], Some(x)), L'[..q + 1] + [x] + L'[q + 1..])
  {
    var x := L[p];
    var L' := L[..p] + L[p + 1..];
    SpliceShape(m, L, p);
    SpliceDistinct(L, p);
    assert x !in L' by {
      forall i | 0 <= i < |L'| ensures L'[i] != x {
        SpliceIndex(L, p, i);
      }
    }
    LinkShape(WithNext(m, L[p - 1], m[x].nextId), L', q, x);
  }

  /** Moving a non-root ticket after another ticket of its own column removes
      it from the column's listing and reinserts it right after the anchor;
      the other columns keep their listings. */
  lemma MovedWithinLinked(m: Store, cols: map<Status, seq<Id>>, x: Id, a: Id)
    requires Linked(m, cols) && x in m && a in m && x != a
    requires m[x].status == m[a].status && !m[x].isRoot
    ensures AtMostOnePredecessor(m, x)
    ensures Linked(MovedWithin(m, x, a), cols[m[x].status := InsertAfter(Remove(cols[m[x].status], x), a, x)])
  {
    LinkedNoFork(m, cols, x);
    var s := m[x].status;
    var r := MovedWithin(m, x, a);
    var cols' := cols[s := InsertAfter(Remove(cols[s], x), a, x)];
    RelinkedFrame(m, x, a);
    MovedWithinColumn(m, cols, x, a);
    forall u: Status ensures ChainOf(r, u, cols'[u]) {
      if u == s {
        assert cols'[u] == InsertAfter(Remove(cols[s], x), a, x);
      } else {
        assert cols'[u] == cols[u];
        MovedWithinOther(m, cols, x, a, u);
      }
    }
  }

  lemma MovedWithinOther(m: Store, cols: map<Status, seq<Id>>, x: Id, a: Id, u: Status)
    requires Linked(m, cols) && x in m && a in m && x != a && AtMostOnePredecessor(m, x)
    requires m[x].status == m[a].status && u != m[x].status
    ensures ChainOf(MovedWithin(m, x, a), u, cols[u])
  {
    RelinkedFrame(m, x, a);
    forall k | k in m && m[k].nextId == Some(x) ensures m[k].status == m[x].status {
      var _ := LinkedSuccessor(m, cols, k, x);
    }
    UntouchedColumn(m, MovedWithin(m, x, a), cols, u);
  }

  lemma MovedWithinColumn(m: Store, cols: map<Status, seq<Id>>, x: Id, a: Id)
    requires Linked(m, cols) && x in m && a in m && x != a
    requires m[x].status == m[a].status && !m[x].isRoot && AtMostOnePredecessor(m, x)
    ensures ChainOf(MovedWithin(m, x, a), m[x].status, InsertAfter(Remove(cols[m[x].status], x), a, x))
  {
    var s := m[x].status;
    var L := cols[s];
    var r := MovedWithin(m, x, a);
    var p := LinkedPosition(m, cols, x);
    var qa := LinkedPosition(m, cols, a);
    var q: nat := if qa < p then qa else qa - 1;
    LinkedDistinct(m, cols, s);
    assert p != qa;
    MovedWithinShapeOf(m, cols, x, a, p, q);
    var L' := L[..p] + L[p + 1..];
    RemoveAt(L, p);
    SpliceDistinct(L, p);
    SpliceIndex(L, p, q);
    InsertAfterAt(L', q, x);
    RelinkedFrame(m, x, a);
    var L'' := InsertAfter(Remove(L, x), a, x);
    forall k | k in r ensures r[k].status == s <==> k in L'' {
      LinkedColumnOf(m, cols, k, s);
    }
    ChainOfMembers(r, s, L'');
  }

  lemma MovedWithinShapeOf(m: Store, cols: map<Status, seq<Id>>, x: Id, a: Id, p: nat, q: nat)
    requires Linked(m, cols) && x in m && a in m && x != a
    requires m[x].status == m[a].status && !m[x].isRoot && AtMostOnePredecessor(m, x)
    requires p < |cols[m[x].status]| && cols[m[x].status][p] == x
    requires q < |cols[m[x].status]| - 1 && (cols[m[x].status][..p] + cols[m[x].status][p + 1..])[q] == a
    ensures var L' := cols[m[x].status][..p] + cols[m[x].status][p + 1..];
            ChainShape(MovedWithin(m, x, a), L'[..q + 1] + [x] + L'[q + 1..])
  {
    var s := m[x].status;
    var L := cols[s];
    assert ChainOf(m, s, L);
    assert p != 0;
    LinkedPredecessor(m, cols, s, p);
    MoveWithinShape(m, L, p, q);
    var m1 := WithNext(m, L[p - 1], m[x].nextId);
    assert Unlinked(m, x) == m1;
  }

  /** Across two disjoint columns: splice `Ls[p]` out of the first, then link
      it in after `Lt[q]` in the second. */
  lemma MoveAcrossShape(m: Store, Ls: seq<Id>, p: nat, Lt: seq<Id>, q: nat)
    requires ChainShape(m, Ls) && ChainShape(m, Lt) && 0 < p < |Ls| && q < |Lt|
    requires forall k :: k in Ls ==> k !in Lt
    ensures var x := Ls[p];
            var m1 := WithNext(m, Ls[p - 1], m[x].nextId);
            var m2 := WithNext(m1, x, m1[Lt[q]].nextId);
            var r := WithNext(m2, Lt[q], Some(x));
            ChainShape(r, Ls[..p] + Ls[p + 1..]) && ChainShape(r, Lt[..q + 1] + [x] + Lt[q + 1..])
  {
    var x := Ls[p];
    var Ls' := Ls[..p] + Ls[p + 1..];
    var m1 := WithNext(m, Ls[p - 1], m[x].nextId);
    var m2 := WithNext(m1, x, m1[Lt[q]].nextId);
    var r := WithNext(m2, Lt[q], Some(x));
    SpliceShape(m, Ls, p);
    assert Ls[p - 1] in Ls && x in Ls;
    ShapeFrame(m, m1, Lt);
    LinkShape(m1, Lt, q, x);
    SpliceDistinct(Ls, p);
    forall k | k in Ls' ensures k in r && r[k].nextId == m1[k].nextId && r[k].isRoot == m1[k].isRoot {
      var i :| 0 <= i < |Ls'| && Ls'[i] == k;
      SpliceIndex(Ls, p, i);
      var j := if i < p then i else i + 1;
      assert k == Ls[j] && j != p;
      assert k in Ls;
    }
    ShapeFrame(m1, r, Ls');
  }

  /** Moving a non-root ticket after a ticket of another column removes it
      from its old column's listing and inserts it right after the anchor in
      the anchor's column; the third column keeps its listing. */
  lemma MovedAcrossLinked(m: Store, cols: map<Status, seq<Id>>, x: Id, a: Id)
    requires Linked(m, cols) && x in m && a in m
    requires m[x].status != m[a].status && !m[x].isRoot
    ensures AtMostOnePredecessor(m, x)
    ensures Linked(MovedAcross(m, x, a),
                   cols[m[x].status := Remove(cols[m[x].status], x)][m[a].status := InsertAfter(cols[m[a].status], a, x)])
  {
    LinkedNoFork(m, cols, x);
    var s := m[x].status;
    var t := m[a].status;
    var r := MovedAcross(m, x, a);
    var cols' := cols[s := Remove(cols[s], x)][t := InsertAfter(cols[t], a, x)];
    MovedAcrossFrame(m, x, a);
    MovedAcrossColumns(m, cols, x, a);
    forall u: Status ensures ChainOf(r, u, cols'[u]) {
      if u == t {
        assert cols'[u] == InsertAfter(cols[t], a, x);
      } else if u == s {
        assert cols'[u] == Remove(cols[s], x);
      } else {
        assert cols'[u] == cols[u];
        MovedAcrossOther(m, cols, x, a, u);
      }
    }
  }

  lemma MovedAcrossOther(m: Store, cols: map<Status, seq<Id>>, x: Id, a: Id, u: Status)
    requires Linked(m, cols) && x in m && a in m && AtMostOnePredecessor(m, x)
    requires u != m[x].status && u != m[a].status
    ensures ChainOf(MovedAcross(m, x, a), u, cols[u])
  {
    MovedAcrossFrame(m, x, a);
    forall k | k in m && m[k].nextId == Some(x) ensures m[k].status == m[x].status {
      var _ := LinkedSuccessor(m, cols, k, x);
    }
    UntouchedColumn(m, MovedAcross(m, x, a), cols, u);
  }

  lemma MovedAcrossColumns(m: Store, cols: map<Status, seq<Id>>, x: Id, a: Id)
    requires Linked(m, cols) && x in m && a in m
    requires m[x].status != m[a].status && !m[x].isRoot && AtMostOnePredecessor(m, x)
    ensures ChainOf(MovedAcross(m, x, a), m[x].status, Remove(cols[m[x].status], x))
    ensures ChainOf(MovedAcross(m, x, a), m[a].status, InsertAfter(cols[m[a].status], a, x))
  {
    var s := m[x].status;
    var t := m[a].status;
    var Ls := cols[s];
    var Lt := cols[t];
    var r := MovedAcross(m, x, a);
    var p := LinkedPosition(m, cols, x);
    var q := LinkedPosition(m, cols, a);
    MovedAcrossShapes(m, cols, x, a, p, q);
    LinkedDistinct(m, cols, s);
    LinkedDistinct(m, cols, t);
    RemoveAt(Ls, p);
    InsertAfterAt(Lt, q, x);
    MovedAcrossFrame(m, x, a);
    MovedAcrossStatuses(m, cols, x, a, r);
    ChainOfMembers(r, s, Remove(Ls, x));
    ChainOfMembers(r, t, InsertAfter(Lt, a, x));
  }

  lemma MovedAcrossShapes(m: Store, cols: map<Status, seq<Id>>, x: Id, a: Id, p: nat, q: nat)
    requires Linked(m, cols) && x in m && a in m
    requires m[x].status != m[a].status && !m[x].isRoot && AtMostOnePredecessor(m, x)
    requires p < |cols[m[x].status]| && cols[m[x].status][p] == x
    requires q < |cols[m[a].status]| && cols[m[a].status][q] == a
    ensures var Ls := cols[m[x].status];
            ChainShape(MovedAcross(m, x, a), Ls[..p] + Ls[p + 1..])
    ensures var Lt := cols[m[a].status];
            ChainShape(MovedAcross(m, x, a), Lt[..q + 1] + [x] + Lt[q + 1..])
  {
    var s := m[x].status;
    var t := m[a].status;
    var Ls := cols[s];
    var Lt := cols[t];
    assert ChainOf(m, s, Ls) && ChainOf(m, t, Lt);
    assert p != 0;
    LinkedPredecessor(m, cols, s, p);
    var m0 := m[x := m[x].(status := t)];
    assert AtMostOnePredecessor(m0, x);
    ShapeFrame(m, m0, Ls);
    ShapeFrame(m, m0, Lt);
    forall k | k in Ls ensures k !in Lt {
      var i :| 0 <= i < |Ls| && Ls[i] == k;
      assert Ls[i] in m;
      LinkedColumnOf(m, cols, k, s);
      LinkedColumnOf(m, cols, k, t);
    }
    MoveAcrossShape(m0, Ls, p, Lt, q);
    MovedAcrossUnfold(m, x, a, Ls[p - 1]);
  }

  /** The cross-column move spelled out once its left neighbour `l` is known. */
  lemma MovedAcrossUnfold(m: Store, x: Id, a: Id, l: Id)
    requires KeysMatch(m) && x in m && a in m && AtMostOnePredecessor(m, x)
    requires l in m && m[l].nextId == Some(x)
    ensures var m0 := m[x := m[x].(status := m[a].status)];
            var m1 := WithNext(m0, l, m0[x].nextId);
            MovedAcross(m, x, a) == WithNext(WithNext(m1, x, m1[a].nextId), a, Some(x))
  {
    var m0 := m[x := m[x].(status := m[a].status)];
    assert AtMostOnePredecessor(m0, x);
    assert FindByNextId(m0, x) == Some(m0[l]);
  }

  /** Which column each ticket is in after the cross-column move, for any
      table `r` that differs from `m` only in the moved ticket's status and in
      successor pointers. */
  lemma MovedAcrossStatuses(m: Store, cols: map<Status, seq<Id>>, x: Id, a: Id, r: Store)
    requires Linked(m, cols) && x in m && a in m && m[x].status != m[a].status
    requires r.Keys == m.Keys && r[x].status == m[a].status
    requires forall k :: k in m && k != x ==> r[k].status == m[k].status
    ensures forall k :: k in r ==> (r[k].status == m[x].status <==> k in Remove(cols[m[x].status], x))
    ensures forall k :: k in r ==> (r[k].status == m[a].status <==> k in InsertAfter(cols[m[a].status], a, x))
  {
    var s := m[x].status;
    var t := m[a].status;
    assert a in cols[t] by {
      var q := LinkedPosition(m, cols, a);
    }
    forall k | k in r && k != x
      ensures (m[k].status == s <==> k in cols[s]) && (m[k].status == t <==> k in cols[t])
    {
      LinkedColumnOf(m, cols, k, s);
      LinkedColumnOf(m, cols, k, t);
    }
  }
}
