/** The pointer rewrites the service performs on the ticket table, one function
    per mutating operation, and what each does to the column listings.

    Every step reads the table as it stands after the previous write: an entity
    the service fetched earlier and then changed through another reference is
    seen with that change. */
module Relink {
  import opened Tickets
  import opened TicketRepository
  import opened Chains

  /** The table after one `setNextId` followed by `save`: ticket `k` now points
      at `n`, and nothing else changes. */
  function WithNext(m: Store, k: Id, n: Option<Id>): Store
    requires k in m
  {
    m[k := m[k].(nextId := n)]
  }

  /** save: the new ticket enters with no successor, and the column's old tail
      (found before the insert) is pointed at it. */
  function Appended(m: Store, id: Id, title: string, content: string, s: Status): (r: Store)
    requires KeysMatch(m) && AtMostOneWith(m, None, s) && id !in m
    ensures KeysMatch(r) && r.Keys == m.Keys + {id}
    ensures r[id] == Ticket(id, title, content, s, None, false)
    ensures forall k :: k in m && !(m[k].nextId == None && m[k].status == s) ==> r[k] == m[k]
    ensures forall k :: k in m && m[k].nextId == None && m[k].status == s ==> r[k] == m[k].(nextId := Some(id))
  {
    var last := FindByNextIdAndStatus(m, None, s);
    var m1 := m[id := Ticket(id, title, content, s, None, false)];
    if last.Some? then WithNext(m1, last.value.id, Some(id)) else m1
  }

  /** deleteById on a present id: the left neighbour takes over the deleted
      ticket's successor, then the ticket leaves the table. */
  function SplicedOut(m: Store, x: Id): (r: Store)
    requires KeysMatch(m) && x in m && AtMostOnePredecessor(m, x)
    ensures KeysMatch(r) && r.Keys == m.Keys - {x}
    ensures forall k :: k in r && m[k].nextId != Some(x) ==> r[k] == m[k]
    ensures forall k :: k in r && m[k].nextId == Some(x) ==> r[k] == m[k].(nextId := m[x].nextId)
  {
    var left := FindByNextId(m, x);
    var m1 := if left.Some? then WithNext(m, left.value.id, m[x].nextId) else m;
    m1 - {x}
  }

  /** The first of the writes both move helpers make: the moved ticket's left
      neighbour, if any, takes over the moved ticket's successor. */
  function Unlinked(m: Store, x: Id): (r: Store)
    requires KeysMatch(m) && x in m && AtMostOnePredecessor(m, x)
    ensures r.Keys == m.Keys
  {
    var left := FindByNextId(m, x);
    if left.Some? then WithNext(m, left.value.id, m[x].nextId) else m
  }

  /** The three writes both move helpers make: the left neighbour takes over
      the moved ticket's successor, the moved ticket takes over the anchor's
      successor (as it stands after the first write), and the anchor points at
      the moved ticket. */
  function Relinked(m: Store, x: Id, a: Id): (r: Store)
    requires KeysMatch(m) && x in m && a in m && AtMostOnePredecessor(m, x)
    ensures r.Keys == m.Keys
  {
    var m1 := Unlinked(m, x);
    var m2 := WithNext(m1, x, m1[a].nextId);
    WithNext(m2, a, Some(x))
  }

  /** The move writes change successor pointers only, and only those of the
      moved ticket, the anchor and the moved ticket's left neighbour. */
  lemma RelinkedFrame(m: Store, x: Id, a: Id)
    requires KeysMatch(m) && x in m && a in m && AtMostOnePredecessor(m, x)
    ensures KeysMatch(Relinked(m, x, a))
    ensures forall k :: k in m ==> Relinked(m, x, a)[k] == m[k].(nextId := Relinked(m, x, a)[k].nextId)
    ensures forall k :: k in m && k != x && k != a && m[k].nextId != Some(x) ==> Relinked(m, x, a)[k] == m[k]
  {
    var left := FindByNextId(m, x);
    var m1 := Unlinked(m, x);
    var m2 := WithNext(m1, x, m1[a].nextId);
    var r := WithNext(m2, a, Some(x));
    assert r == Relinked(m, x, a);
    forall k | k in m
      ensures r[k] == m[k].(nextId := r[k].nextId)
      ensures k != x && k != a && m[k].nextId != Some(x) ==> r[k] == m[k]
    {
      if left.Some? && k == left.value.id {
        assert m1[k] == m[k].(nextId := m[x].nextId);
      } else {
        assert m1[k] == m[k];
      }
    }
  }

  /** moveTicket within one column: moving a ticket after itself changes
      nothing; otherwise the three writes above. */
  function MovedWithin(m: Store, x: Id, a: Id): (r: Store)
    requires KeysMatch(m) && x in m && a in m && AtMostOnePredecessor(m, x)
    ensures x == a ==> r == m
    ensures r.Keys == m.Keys
  {
    if x == a then m else Relinked(m, x, a)
  }

  /** moveTicket across columns: the moved ticket first takes the anchor's
      status, then the three writes above. */
  function MovedAcross(m: Store, x: Id, a: Id): (r: Store)
    requires KeysMatch(m) && x in m && a in m && AtMostOnePredecessor(m, x)
    ensures r.Keys == m.Keys
  {
    var m0 := m[x := m[x].(status := m[a].status)];
    Relinked(m0, x, a)
  }

  /** The cross-column move writes the moved ticket's status and successor
      pointers only, and only those of the moved ticket, the anchor and the
      moved ticket's left neighbour. */
  lemma MovedAcrossFrame(m: Store, x: Id, a: Id)
    requires KeysMatch(m) && x in m && a in m && AtMostOnePredecessor(m, x)
    ensures KeysMatch(MovedAcross(m, x, a))
    ensures MovedAcross(m, x, a)[x] == m[x].(status := m[a].status, nextId := MovedAcross(m, x, a)[x].nextId)
    ensures forall k :: k in m && k != x ==> MovedAcross(m, x, a)[k] == m[k].(nextId := MovedAcross(m, x, a)[k].nextId)
    ensures forall k :: k in m && k != x && k != a && m[k].nextId != Some(x) ==> MovedAcross(m, x, a)[k] == m[k]
  {
    var m0 := m[x := m[x].(status := m[a].status)];
    assert AtMostOnePredecessor(m0, x);
    RelinkedFrame(m0, x, a);
  }

  /** update: title, content and status are overwritten in place; the
      successor pointer and the root mark stay. */
  function Overwritten(m: Store, id: Id, title: string, content: string, s: Status): (r: Store)
    requires KeysMatch(m) && id in m
    ensures KeysMatch(r) && r.Keys == m.Keys
    ensures r[id] == Ticket(id, title, content, s, m[id].nextId, m[id].isRoot)
    ensures forall k :: k in m && k != id ==> r[k] == m[k]
  {
    m[id := m[id].(title := title, content := content, status := s)]
  }

  /** A column whose tickets a change leaves alone, and into which it brings
      no ticket, keeps its listing. */
  lemma UntouchedColumn(m: Store, r: Store, cols: map<Status, seq<Id>>, u: Status)
    requires Linked(m, cols)
    requires forall k :: k in m && m[k].status == u ==> k in r && r[k] == m[k]
    requires forall k :: k in r && r[k].status == u ==> k in m && m[k] == r[k]
    ensures ChainOf(r, u, cols[u])
  {
    var L := cols[u];
    assert ChainOf(m, u, L);
    forall k | k in L ensures k in r && r[k] == m[k] {
      var i :| 0 <= i < |L| && L[i] == k;
      assert m[L[i]].status == u;
    }
    ColumnFrame(m, r, u, L);
  }

  /** Appending to a well-formed table appends to the column's listing and
      leaves the other columns alone. */
  lemma AppendedLinked(m: Store, cols: map<Status, seq<Id>>, id: Id, title: string, content: string, s: Status)
    requires Linked(m, cols) && id !in m
    ensures AtMostOneWith(m, None, s)
    ensures Linked(Appended(m, id, title, content, s), cols[s := cols[s] + [id]])
  {
    LinkedTail(m, cols, s);
    var r := Appended(m, id, title, content, s);
    var cols' := cols[s := cols[s] + [id]];
    forall u: Status ensures ChainOf(r, u, cols'[u]) {
      if u == s {
        AppendedColumn(m, cols, id, title, content, s);
      } else {
        UntouchedColumn(m, r, cols, u);
      }
    }
  }

  lemma AppendedColumn(m: Store, cols: map<Status, seq<Id>>, id: Id, title: string, content: string, s: Status)
    requires Linked(m, cols) && id !in m && AtMostOneWith(m, None, s)
    ensures ChainOf(Appended(m, id, title, content, s), s, cols[s] + [id])
  {
    var L := cols[s];
    var n := |L|;
    var L' := L + [id];
    var r := Appended(m, id, title, content, s);
    assert ChainOf(m, s, L);
    forall i | 0 <= i < n + 1
      ensures L'[i] in r && r[L'[i]].isRoot == (i == 0) && r[L'[i]].nextId == Succ(L', i) && r[L'[i]].status == s
    {
      if i < n {
        assert L'[i] == L[i] && m[L[i]].nextId == Succ(L, i);
      }
    }
    assert Distinct(L') by {
      forall i, j | 0 <= i < j < n + 1 ensures L'[i] != L'[j] {
        if j < n { assert L[i] != L[j]; } else { assert L[i] in m; }
      }
    }
  }

  /** Deleting a non-root ticket from a well-formed table removes it from its
      column's listing and leaves the other columns alone. */
  lemma SplicedOutLinked(m: Store, cols: map<Status, seq<Id>>, x: Id)
    requires Linked(m, cols) && x in m && !m[x].isRoot
    ensures AtMostOnePredecessor(m, x)
    ensures Linked(SplicedOut(m, x), cols[m[x].status := Remove(cols[m[x].status], x)])
  {
    LinkedNoFork(m, cols, x);
    var s := m[x].status;
    var r := SplicedOut(m, x);
    var cols' := cols[s := Remove(cols[s], x)];
    forall u: Status ensures ChainOf(r, u, cols'[u]) {
      if u == s {
        SplicedOutColumn(m, cols, x);
      } else {
        forall k | k in m && m[k].nextId == Some(x) ensures m[k].status == s {
          var _ := LinkedSuccessor(m, cols, k, x);
        }
        UntouchedColumn(m, r, cols, u);
      }
    }
  }

  lemma SplicedOutColumn(m: Store, cols: map<Status, seq<Id>>, x: Id)
    requires Linked(m, cols) && x in m && !m[x].isRoot && AtMostOnePredecessor(m, x)
    ensures ChainOf(SplicedOut(m, x), m[x].status, Remove(cols[m[x].status], x))
  {
    var s := m[x].status;
    var L := cols[s];
    var p := LinkedPosition(m, cols, x);
    assert ChainOf(m, s, L);
    assert p != 0;
    LinkedPredecessor(m, cols, s, p);
    assert SplicedOut(m, x) == WithNext(m, L[p - 1], m[L[p]].nextId) - {L[p]};
    SpliceColumn(m, s, L, p);
    RemoveAt(L, p);
  }

  /** Splicing out the element at position `p` of a column listing, and then
      dropping it from the table, leaves the listing without it. */
  lemma SpliceColumn(m: Store, s: Status, L: seq<Id>, p: nat)
    requires ChainOf(m, s, L) && 0 < p < |L|
    ensures ChainOf(WithNext(m, L[p - 1], m[L[p]].nextId) - {L[p]}, s, L[..p] + L[p + 1..])
  {
    SpliceColumnShape(m, s, L, p);
    SpliceColumnStatus(m, s, L, p);
    SpliceColumnMembers(m, s, L, p);
  }

  lemma SpliceColumnShape(m: Store, s: Status, L: seq<Id>, p: nat)
    requires ChainOf(m, s, L) && 0 < p < |L|
    ensures ChainShape(WithNext(m, L[p - 1], m[L[p]].nextId) - {L[p]}, L[..p] + L[p + 1..])
  {
    var m1 := WithNext(m, L[p - 1], m[L[p]].nextId);
    var L' := L[..p] + L[p + 1..];
    SpliceShape(m, L, p);
    SpliceDistinct(L, p);
    assert L[p] !in L' by {
      forall i | 0 <= i < |L'| ensures L'[i] != L[p] {
        SpliceIndex(L, p, i);
      }
    }
    ShapeFrame(m1, m1 - {L[p]}, L');
  }

  lemma SpliceColumnStatus(m: Store, s: Status, L: seq<Id>, p: nat)
    requires ChainOf(m, s, L) && 0 < p < |L|
    requires ChainShape(WithNext(m, L[p - 1], m[L[p]].nextId) - {L[p]}, L[..p] + L[p + 1..])
    ensures var r := WithNext(m, L[p - 1], m[L[p]].nextId) - {L[p]};
            var L' := L[..p] + L[p + 1..];
            forall i {:trigger r[L'[i]]} :: 0 <= i < |L'| ==> r[L'[i]].status == s
  {
    var r := WithNext(m, L[p - 1], m[L[p]].nextId) - {L[p]};
    var L' := L[..p] + L[p + 1..];
    forall i | 0 <= i < |L'| ensures r[L'[i]].status == s {
      SpliceIndex(L, p, i);
      var j := if i < p then i else i + 1;
      assert m[L[j]].status == s;
    }
  }

  lemma SpliceColumnMembers(m: Store, s: Status, L: seq<Id>, p: nat)
    requires ChainOf(m, s, L) && 0 < p < |L|
    ensures var r := WithNext(m, L[p - 1], m[L[p]].nextId) - {L[p]};
            forall k {:trigger r[k]} :: k in r && r[k].status == s ==> k in L[..p] + L[p + 1..]
  {
    var m1 := WithNext(m, L[p - 1], m[L[p]].nextId);
    var r := m1 - {L[p]};
    forall k | k in r && r[k].status == s ensures k in L[..p] + L[p + 1..] {
      assert m1[k] == m[k].(nextId := m1[k].nextId);
      var i :| 0 <= i < |L| && L[i] == k;
      if i < p {
        SpliceIndex(L, p, i);
      } else {
        assert i != p;
        SpliceIndex(L, p, i - 1);
      }
    }
  }
}
