/** What update does to the board. The successor pointers and root marks are
    left alone, so every column is listed along the same chain as before; when
    the status is kept the table stays well formed, and when it changes the
    ticket is still listed in its old column, now carrying the new status. */
module Updates {
  import opened Tickets
  import opened Chains
  import opened Relink
  import opened Listing

  /** Updating a ticket without changing its status keeps the table well formed
      with the same column listings. */
  lemma OverwrittenLinked(m: Store, cols: map<Status, seq<Id>>, id: Id, title: string, content: string)
    requires Linked(m, cols) && id in m
    ensures Linked(Overwritten(m, id, title, content, m[id].status), cols)
  {
    var r := Overwritten(m, id, title, content, m[id].status);
    forall u: Status ensures ChainOf(r, u, cols[u]) {
      var L := cols[u];
      assert ChainOf(m, u, L);
      ShapeFrame(m, r, L);
    }
  }

  /** After updating a non-root ticket, whatever its new status, every column
      is listed along the chain it had before the update. */
  lemma OverwrittenListing(all: seq<Ticket>, m: Store, cols: map<Status, seq<Id>>, id: Id,
                           title: string, content: string, s: Status, u: Status)
    requires Linked(m, cols) && id in m && !m[id].isRoot
    requires Enumerates(all, Overwritten(m, id, title, content, s))
    ensures ColumnListing(all, u) == Ok(TicketsOf(Overwritten(m, id, title, content, s), cols[u]))
  {
    var r := Overwritten(m, id, title, content, s);
    var L := cols[u];
    assert ChainOf(m, u, L);
    ShapeFrame(m, r, L);
    assert L[0] != id by {
      assert m[L[0]].isRoot;
    }
    forall k | k in r && r[k].isRoot && r[k].status == u ensures k == L[0] {
      assert k != id && r[k] == m[k];
      LinkedColumnOf(m, cols, k, u);
      var i :| 0 <= i < |L| && L[i] == k;
      assert m[L[i]].isRoot == (i == 0);
    }
    ListingFollowsChain(all, r, u, L);
  }

  /** Updating the status of a non-root ticket leaves the table with no
      column listings at all: its left neighbour still points at it, while in
      a well-formed table a successor shares its predecessor's status. */
  lemma OverwrittenUnlinks(m: Store, cols: map<Status, seq<Id>>, id: Id,
                           title: string, content: string, s: Status, cols': map<Status, seq<Id>>)
    requires Linked(m, cols) && id in m && !m[id].isRoot && s != m[id].status
    ensures !Linked(Overwritten(m, id, title, content, s), cols')
  {
    var r := Overwritten(m, id, title, content, s);
    var u := m[id].status;
    var L := cols[u];
    var p := LinkedPosition(m, cols, id);
    assert ChainOf(m, u, L);
    assert p > 0;
    var j := L[p - 1];
    assert m[j].nextId == Some(id) && j != id;
    SuccessorStatus(r, cols', j, id);
  }

  /** Updating the status of a root leaves its old column without a root,
      so listing that column fails. */
  lemma OverwrittenRootLeaves(all: seq<Ticket>, m: Store, cols: map<Status, seq<Id>>, id: Id,
                              title: string, content: string, s: Status)
    requires Linked(m, cols) && id in m && m[id].isRoot && s != m[id].status
    requires Enumerates(all, Overwritten(m, id, title, content, s))
    ensures ColumnListing(all, m[id].status) == Err(NoRootFound(m[id].status))
  {
    var r := Overwritten(m, id, title, content, s);
    var u := m[id].status;
    RootHeads(m, cols, id);
    forall i | 0 <= i < |all| ensures !(all[i].isRoot && all[i].status == u) {
      var k := all[i].id;
      assert r[k] == all[i];
      RootHeads(m, cols, k);
    }
  }

  /** In a well-formed table a root heads the listing of its own column. */
  lemma RootHeads(m: Store, cols: map<Status, seq<Id>>, k: Id)
    ensures Linked(m, cols) && k in m && m[k].isRoot ==> |cols[m[k].status]| > 0 && k == cols[m[k].status][0]
  {
    if Linked(m, cols) && k in m && m[k].isRoot {
      var u := m[k].status;
      var L := cols[u];
      assert ChainOf(m, u, L);
      LinkedColumnOf(m, cols, k, u);
      var q :| 0 <= q < |L| && L[q] == k;
      assert m[L[q]].isRoot == (q == 0);
    }
  }

  /** In a well-formed table a ticket's successor is in the same column. */
  lemma SuccessorStatus(m: Store, cols: map<Status, seq<Id>>, j: Id, x: Id)
    ensures Linked(m, cols) && j in m && m[j].nextId == Some(x) ==> x in m && m[x].status == m[j].status
  {
    if Linked(m, cols) && j in m && m[j].nextId == Some(x) {
      var _ := LinkedSuccessor(m, cols, j, x);
    }
  }

  /** In a well-formed table a column's listing shows only tickets of that
      column's status. */
  lemma ListedStatuses(all: seq<Ticket>, m: Store, cols: map<Status, seq<Id>>, u: Status)
    requires Enumerates(all, m)
    ensures Linked(m, cols) ==>
      ColumnListing(all, u).Ok? && forall j :: 0 <= j < |ColumnListing(all, u).value| ==> ColumnListing(all, u).value[j].status == u
  {
    if Linked(m, cols) {
      LinkedListing(all, m, cols, u);
      assert ChainOf(m, u, cols[u]);
    }
  }
}
