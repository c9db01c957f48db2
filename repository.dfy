/** The derived queries of the ticket repository, as lookups over the table.

    Each single-result query may only be asked when at most one ticket matches
    (the persistence layer fails on a second match; the chain invariant rules
    one out). When nothing matches the query yields None. */
module TicketRepository {
  import opened Tickets

  /** At most one ticket points at `x`: the "no forking" property for one id. */
  ghost predicate AtMostOnePredecessor(m: Store, x: Id) {
    forall j, k :: j in m && k in m && m[j].nextId == Some(x) && m[k].nextId == Some(x) ==> j == k
  }

  /** At most one ticket of column `s` has the successor `next`. */
  ghost predicate AtMostOneWith(m: Store, next: Option<Id>, s: Status) {
    forall j, k ::
      j in m && k in m && m[j].nextId == next && m[j].status == s && m[k].nextId == next && m[k].status == s
      ==> j == k
  }

  /** findByNextId: the ticket whose successor is `x`, i.e. the left neighbour of `x`. */
  function FindByNextId(m: Store, x: Id): (r: Option<Ticket>)
    requires KeysMatch(m) && AtMostOnePredecessor(m, x)
    ensures r.Some? ==> r.value.id in m && m[r.value.id] == r.value && r.value.nextId == Some(x)
    ensures r.None? <==> forall k {:trigger m[k]} :: k in m ==> m[k].nextId != Some(x)
  {
    if exists k :: k in m && m[k].nextId == Some(x) then
      var k :| k in m && m[k].nextId == Some(x);
      Some(m[k])
    else
      None
  }

  /** findByNextIdAndStatus: the ticket of column `s` whose successor is `next`;
      with `next == None` this is the column's tail. */
  function FindByNextIdAndStatus(m: Store, next: Option<Id>, s: Status): (r: Option<Ticket>)
    requires KeysMatch(m) && AtMostOneWith(m, next, s)
    ensures r.Some? ==> r.value.id in m && m[r.value.id] == r.value && r.value.nextId == next && r.value.status == s
    ensures r.None? <==> forall k {:trigger m[k]} :: k in m ==> !(m[k].nextId == next && m[k].status == s)
  {
    if exists k :: k in m && m[k].nextId == next && m[k].status == s then
      var k :| k in m && m[k].nextId == next && m[k].status == s;
      Some(m[k])
    else
      None
  }

  /** `t` occurs in `s` starting at position `i`. */
  predicate OccursAt(s: string, t: string, i: nat) {
    i + |t| <= |s| && s[i..i + |t|] == t
  }

  /** Whether `t` occurs in `s` as a contiguous substring (the query's
      `LIKE '%t%'` with the wildcards of `t` escaped). */
  function Contains(s: string, t: string): (r: bool)
    ensures r <==> exists i: nat :: OccursAt(s, t, i)
    decreases |s|
  {
    if |t| > |s| then false
    else if s[..|t|] == t then assert OccursAt(s, t, 0); true
    else
      var r' := Contains(s[1..], t);
      assert r' <==> exists i: nat :: OccursAt(s, t, i) by {
        forall i: nat ensures OccursAt(s[1..], t, i) <==> OccursAt(s, t, i + 1) {
          if i + |t| <= |s| - 1 {
            assert s[1..][i..i + |t|] == s[i + 1..i + 1 + |t|];
          }
        }
        if exists i: nat :: OccursAt(s, t, i) {
          var i: nat :| OccursAt(s, t, i);
          assert i != 0;
          assert OccursAt(s[1..], t, i - 1);
        }
      }
      r'
  }

  /** findByTitleContaining: every stored ticket whose title contains `t`; the
      query promises no order, so the result is a set. */
  function FindByTitleContaining(m: Store, t: string): (r: set<Ticket>)
    ensures forall x :: x in r <==> x in m.Values && Contains(x.title, t)
  {
    set k | k in m && Contains(m[k].title, t) :: m[k]
  }

  /** An empty search string matches every stored ticket. */
  lemma EmptySearchMatchesAll(m: Store)
    ensures FindByTitleContaining(m, "") == m.Values
  {
    forall x | x in m.Values ensures Contains(x.title, "") {
      assert OccursAt(x.title, "", 0);
    }
  }
}
