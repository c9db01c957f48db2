/** The read side of the service: each column is listed by starting at the
    column's root ticket and following successor pointers through the rows of
    the table; the board is the three column listings in the order
    toDo, toTest, done. */
module Listing {
  import opened Tickets
  import opened Chains

  /** The first row, in the table's row order, that is a root of column `s`. */
  function FirstRoot(all: seq<Ticket>, s: Status): (r: Option<Ticket>)
    ensures r.Some? ==> r.value in all && r.value.isRoot && r.value.status == s
    ensures r.None? <==> forall i :: 0 <= i < |all| ==> !(all[i].isRoot && all[i].status == s)
  {
    if all == [] then None
    else if all[0].isRoot && all[0].status == s then Some(all[0])
    else
      var r := FirstRoot(all[1..], s);
      assert forall i :: 1 <= i < |all| ==> all[i] == all[1..][i - 1];
      r
  }

  /** The root found is the first matching row: it sits at a position `i`
      before which no row is a root of column `s`. */
  lemma {:induction false} FirstRootIsFirst(all: seq<Ticket>, s: Status) returns (i: nat)
    requires FirstRoot(all, s).Some?
    ensures i < |all| && all[i] == FirstRoot(all, s).value
    ensures forall j :: 0 <= j < i ==> !(all[j].isRoot && all[j].status == s)
  {
    if all[0].isRoot && all[0].status == s {
      i := 0;
    } else {
      var i' := FirstRootIsFirst(all[1..], s);
      i := i' + 1;
      forall j | 0 <= j < i ensures !(all[j].isRoot && all[j].status == s) {
        if j > 0 {
          assert all[j] == all[1..][j - 1];
        }
      }
    }
  }

  /** No two rows share an id (the id is the table's primary key). */
  ghost predicate DistinctIds(all: seq<Ticket>) {
    forall i, j :: 0 <= i < j < |all| ==> all[i].id != all[j].id
  }

  /** The rows indexed by id, as the walk's lookup map. */
  function ById(all: seq<Ticket>): (r: map<Id, Ticket>)
    requires DistinctIds(all)
    ensures KeysMatch(r)
    ensures forall i :: 0 <= i < |all| ==> all[i].id in r && r[all[i].id] == all[i]
    ensures forall k :: k in r ==> exists i :: 0 <= i < |all| && all[i].id == k
  {
    map t | t in all :: t.id := t
  }

  /** `all` lists the rows of table `m`, each once, in some order. */
  ghost predicate Enumerates(all: seq<Ticket>, m: Store) {
    DistinctIds(all) && ById(all) == m
  }

  /** `results` put in front of a walk's outcome. */
  function Prepend(results: seq<Ticket>, w: Result<seq<Ticket>>): (r: Result<seq<Ticket>>)
    ensures r.Ok? <==> w.Ok?
    ensures w.Ok? ==> r.value == results + w.value
    ensures w.Err? ==> r == w
  {
    match w
    case Ok(v) => Ok(results + v)
    case Err(e) => Err(e)
  }

  /** `P` follows successor pointers through `mp`, starting at `k`. */
  ghost predicate PathFrom(mp: map<Id, Ticket>, k: Id, P: seq<Id>) {
    && |P| > 0 && P[0] == k
    && (forall i :: 0 <= i < |P| ==> P[i] in mp)
    && forall i :: 0 <= i < |P| - 1 ==> mp[P[i]].nextId == Some(P[i + 1])
  }

  /** Following successor pointers from `k` visits the ids of `P`, none of
      them listed before (`seen`), and then comes back to an id that is
      already listed or already on `P`. */
  ghost predicate CyclePath(mp: map<Id, Ticket>, k: Id, seen: set<Id>, P: seq<Id>) {
    && PathFrom(mp, k, P) && Distinct(P)
    && (forall i :: 0 <= i < |P| ==> P[i] !in seen)
    && var n := mp[P[|P| - 1]].nextId;
       n.Some? && n.value in mp && (n.value in seen || n.value in P)
  }

  /** A cycle reached from the successor of `k` is a cycle reached from `k`. */
  lemma ExtendCycle(mp: map<Id, Ticket>, k: Id, seen: set<Id>)
    requires k in mp && k !in seen && mp[k].nextId.Some? && mp[k].nextId.value in mp
    requires exists P :: CyclePath(mp, mp[k].nextId.value, seen + {k}, P)
    ensures exists P :: CyclePath(mp, k, seen, P)
  {
    var P :| CyclePath(mp, mp[k].nextId.value, seen + {k}, P);
    var P' := [k] + P;
    assert forall i :: 1 <= i < |P'| ==> P'[i] == P[i - 1];
    assert CyclePath(mp, k, seen, P');
  }

  /** The walk of column `s` from ticket `k`, where `seen` holds the ids the
      walk has already listed. It stops at a ticket without successor or whose
      successor is not in the table, and reports a cycle where it would come
      back to a ticket it has listed. */
  function Walk(mp: map<Id, Ticket>, s: Status, k: Id, seen: set<Id>): (r: Result<seq<Ticket>>)
    requires KeysMatch(mp) && k in mp && k !in seen
    ensures r.Ok? ==> |r.value| > 0 && r.value[0] == mp[k]
    ensures r.Ok? ==> forall j {:trigger r.value[j].nextId} :: 0 <= j < |r.value| - 1 ==> r.value[j].nextId == Some(r.value[j + 1].id)
    ensures r.Ok? ==> var last := r.value[|r.value| - 1]; last.nextId.None? || last.nextId.value !in mp
    ensures r.Err? ==> r.error == CycleFound(s)
    decreases mp.Keys - seen
  {
    var t := mp[k];
    var seen' := seen + {k};
    if t.nextId.None? || t.nextId.value !in mp then Ok([t])
    else if t.nextId.value in seen' then
      Err(CycleFound(s))
    else
      var w := Walk(mp, s, t.nextId.value, seen');
      assert w.Ok? ==> w.value[0].id == t.nextId.value;
      Prepend([t], w)
  }

  /** What the walk lists are rows of the table, none of them listed before. */
  lemma {:induction false} WalkRows(mp: map<Id, Ticket>, s: Status, k: Id, seen: set<Id>)
    requires KeysMatch(mp) && k in mp && k !in seen
    ensures var r := Walk(mp, s, k, seen);
            r.Ok? ==> forall j :: 0 <= j < |r.value| ==> r.value[j].id in mp && mp[r.value[j].id] == r.value[j] && r.value[j].id !in seen
    decreases mp.Keys - seen
  {
    var t := mp[k];
    var seen' := seen + {k};
    if t.nextId.Some? && t.nextId.value in mp && t.nextId.value !in seen' {
      var n := t.nextId.value;
      WalkRows(mp, s, n, seen');
      var w := Walk(mp, s, n, seen');
      assert Walk(mp, s, k, seen) == Prepend([t], w);
      if w.Ok? {
        var v := [t] + w.value;
        forall j | 0 <= j < |v| ensures v[j].id in mp && mp[v[j].id] == v[j] && v[j].id !in seen {
          if j > 0 {
            assert v[j] == w.value[j - 1];
          }
        }
      }
    }
  }

  /** The walk lists each ticket at most once. */
  lemma {:induction false} WalkDistinct(mp: map<Id, Ticket>, s: Status, k: Id, seen: set<Id>)
    requires KeysMatch(mp) && k in mp && k !in seen
    ensures var r := Walk(mp, s, k, seen);
            r.Ok? ==> forall i, j :: 0 <= i < j < |r.value| ==> r.value[i].id != r.value[j].id
    decreases mp.Keys - seen
  {
    var t := mp[k];
    var seen' := seen + {k};
    if t.nextId.Some? && t.nextId.value in mp && t.nextId.value !in seen' {
      var n := t.nextId.value;
      WalkDistinct(mp, s, n, seen');
      WalkRows(mp, s, n, seen');
      var w := Walk(mp, s, n, seen');
      assert Walk(mp, s, k, seen) == Prepend([t], w);
      if w.Ok? {
        var v := [t] + w.value;
        forall i, j | 0 <= i < j < |v| ensures v[i].id != v[j].id {
          assert v[j] == w.value[j - 1] && v[j].id !in seen';
          if i > 0 {
            assert v[i] == w.value[i - 1];
          }
        }
      }
    }
  }

  /** The walk fails only where following successor pointers from `k` really
      comes back to a ticket already listed. */
  lemma {:induction false} WalkCycle(mp: map<Id, Ticket>, s: Status, k: Id, seen: set<Id>)
    requires KeysMatch(mp) && k in mp && k !in seen
    ensures Walk(mp, s, k, seen).Err? ==> exists P :: CyclePath(mp, k, seen, P)
    decreases mp.Keys - seen
  {
    var t := mp[k];
    var seen' := seen + {k};
    if t.nextId.None? || t.nextId.value !in mp {
    } else if t.nextId.value in seen' {
      assert CyclePath(mp, k, seen, [k]);
    } else {
      var n := t.nextId.value;
      WalkCycle(mp, s, n, seen');
      if Walk(mp, s, n, seen').Err? {
        ExtendCycle(mp, k, seen);
      }
    }
  }

  /** sorted: the listing of column `s` over the rows `all`; no root is an
      error. */
  function ColumnListing(all: seq<Ticket>, s: Status): (r: Result<seq<Ticket>>)
    requires DistinctIds(all)
    ensures r == Err(NoRootFound(s)) <==> forall i :: 0 <= i < |all| ==> !(all[i].isRoot && all[i].status == s)
    ensures r.Ok? ==> |r.value| > 0 && r.value[0] in all && r.value[0].isRoot && r.value[0].status == s
  {
    match FirstRoot(all, s)
    case None => Err(NoRootFound(s))
    case Some(root) => Walk(ById(all), s, root.id, {})
  }

  method Sorted(s: Status, all: seq<Ticket>) returns (r: Result<seq<Ticket>>)
    requires DistinctIds(all)
    ensures r == ColumnListing(all, s)
  {
    var root := FirstRoot(all, s);
    if root.None? {
      return Err(NoRootFound(s));
    }
    var mp := ById(all);
    var i :| 0 <= i < |all| && all[i] == root.value;
    assert mp[root.value.id] == root.value;
    var results: seq<Ticket> := [];
    var current: Option<Ticket> := root;
    var seen: set<Id> := {};
    ghost var listing := Walk(mp, s, root.value.id, {});
    assert Prepend(results, listing) == listing by {
      if listing.Ok? { assert [] + listing.value == listing.value; }
    }
    while current.Some?
      invariant current.Some? ==> current.value.id in mp && mp[current.value.id] == current.value
      invariant current.Some? ==> current.value.id !in seen && listing == Prepend(results, Walk(mp, s, current.value.id, seen))
      invariant current.None? ==> listing == Ok(results)
      decreases mp.Keys - seen
    {
      var t := current.value;
      WalkStep(mp, s, t, seen, results);
      results := results + [t];
      seen := seen + {t.id};
      if t.nextId.None? || t.nextId.value !in mp {
        current := None;
      } else if t.nextId.value in seen {
        return Err(CycleFound(s));
      } else {
        current := Some(mp[t.nextId.value]);
      }
    }
    r := Ok(results);
  }

  /** One step of the walk, seen from the listing built so far. */
  lemma WalkStep(mp: map<Id, Ticket>, s: Status, t: Ticket, seen: set<Id>, results: seq<Ticket>)
    requires KeysMatch(mp) && t.id in mp && mp[t.id] == t && t.id !in seen
    ensures t.nextId.None? || t.nextId.value !in mp ==> Prepend(results, Walk(mp, s, t.id, seen)) == Ok(results + [t])
    ensures t.nextId.Some? && t.nextId.value in mp && t.nextId.value in seen + {t.id} ==> Prepend(results, Walk(mp, s, t.id, seen)) == Err(CycleFound(s))
    ensures t.nextId.Some? && t.nextId.value in mp && t.nextId.value !in seen + {t.id} ==>
              Prepend(results, Walk(mp, s, t.id, seen)) == Prepend(results + [t], Walk(mp, s, t.nextId.value, seen + {t.id}))
  {
    if t.nextId.Some? && t.nextId.value in mp && t.nextId.value !in seen + {t.id} {
      var w' := Walk(mp, s, t.nextId.value, seen + {t.id});
      if w'.Ok? {
        assert results + ([t] + w'.value) == (results + [t]) + w'.value;
      }
    }
  }

  /** findAllAsList: the toDo, toTest and done listings, one after another;
      the first column without a root decides the error. */
  function FindAllAsList(all: seq<Ticket>): (r: Result<seq<Ticket>>)
    requires DistinctIds(all)
    ensures r.Ok? <==> ColumnListing(all, ToDo).Ok? && ColumnListing(all, ToTest).Ok? && ColumnListing(all, Done).Ok?
    ensures r.Ok? ==> r.value == ColumnListing(all, ToDo).value + ColumnListing(all, ToTest).value + ColumnListing(all, Done).value
  {
    var todo := ColumnListing(all, ToDo);
    var totest := ColumnListing(all, ToTest);
    var done := ColumnListing(all, Done);
    if todo.Err? then Err(todo.error)
    else if totest.Err? then Err(totest.error)
    else if done.Err? then Err(done.error)
    else Ok(todo.value + totest.value + done.value)
  }

  /** getAll: the three listings keyed by status. */
  function GetAll(all: seq<Ticket>): (r: Result<map<Status, seq<Ticket>>>)
    requires DistinctIds(all)
    ensures r.Ok? <==> FindAllAsList(all).Ok?
    ensures r.Err? ==> r.error == FindAllAsList(all).error
    ensures r.Ok? ==> r.value.Keys == {ToDo, ToTest, Done}
    ensures r.Ok? ==> Ok(r.value[ToDo]) == ColumnListing(all, ToDo) && Ok(r.value[ToTest]) == ColumnListing(all, ToTest)
                      && Ok(r.value[Done]) == ColumnListing(all, Done)
  {
    var todo := ColumnListing(all, ToDo);
    var totest := ColumnListing(all, ToTest);
    var done := ColumnListing(all, Done);
    if todo.Err? then Err(todo.error)
    else if totest.Err? then Err(totest.error)
    else if done.Err? then Err(done.error)
    else Ok(map[ToDo := todo.value, ToTest := totest.value, Done := done.value])
  }

  /** The rows of `m` that the ids of `L` name, in the order of `L`. */
  function TicketsOf(m: Store, L: seq<Id>): (r: seq<Ticket>)
    ensures (forall i :: 0 <= i < |L| ==> L[i] in m) ==> |r| == |L| && forall i :: 0 <= i < |L| ==> r[i] == m[L[i]]
  {
    if L == [] then []
    else if L[0] in m then [m[L[0]]] + TicketsOf(m, L[1..])
    else TicketsOf(m, L[1..])
  }

  lemma {:induction false} TicketsOfAppend(m: Store, A: seq<Id>, B: seq<Id>)
    ensures TicketsOf(m, A + B) == TicketsOf(m, A) + TicketsOf(m, B)
  {
    if A != [] {
      assert (A + B)[0] == A[0] && (A + B)[1..] == A[1..] + B;
      TicketsOfAppend(m, A[1..], B);
    } else {
      assert A + B == B;
    }
  }

  /** Walking a chain from its `i`-th element lists the rest of the chain. */
  lemma {:induction false} WalkChain(m: Store, s: Status, L: seq<Id>, i: nat, seen: set<Id>)
    requires KeysMatch(m) && ChainShape(m, L) && i < |L|
    requires forall k :: k in seen ==> k in L[..i]
    ensures L[i] !in seen
    ensures Walk(m, s, L[i], seen) == Ok(TicketsOf(m, L[i..]))
    decreases |L| - i
  {
    assert L[i] !in L[..i];
    var t := m[L[i]];
    assert t.nextId == Succ(L, i);
    assert L[i..] == [L[i]] + L[i + 1..];
    if i + 1 < |L| {
      assert L[i + 1] !in seen + {L[i]} by {
        assert L[i + 1] !in L[..i + 1];
        assert L[..i + 1] == L[..i] + [L[i]];
      }
      forall k | k in seen + {L[i]} ensures k in L[..i + 1] {
        assert L[..i + 1] == L[..i] + [L[i]];
      }
      WalkChain(m, s, L, i + 1, seen + {L[i]});
      assert Walk(m, s, L[i], seen) == Prepend([t], Walk(m, s, L[i + 1], seen + {L[i]}));
      assert TicketsOf(m, L[i..]) == [t] + TicketsOf(m, L[i + 1..]);
    } else {
      assert L[i + 1..] == [];
      assert TicketsOf(m, []) == [];
      assert TicketsOf(m, L[i..]) == [t];
      assert Walk(m, s, L[i], seen) == Ok([t]);
    }
  }

  /** A column whose rows form a chain from the column's only root is listed
      as that chain. */
  lemma ListingFollowsChain(all: seq<Ticket>, m: Store, s: Status, L: seq<Id>)
    requires Enumerates(all, m) && ChainShape(m, L) && m[L[0]].status == s
    requires forall k :: k in m && m[k].isRoot && m[k].status == s ==> k == L[0]
    ensures ColumnListing(all, s) == Ok(TicketsOf(m, L))
  {
    var i :| 0 <= i < |all| && all[i].id == L[0];
    assert all[i] == m[L[0]];
    var root := FirstRoot(all, s);
    var j :| 0 <= j < |all| && all[j] == root.value;
    assert m[all[j].id] == root.value;
    WalkChain(m, s, L, 0, {});
    assert L[0..] == L;
  }

  /** In a well-formed table every column is listed as its chain. */
  lemma LinkedListing(all: seq<Ticket>, m: Store, cols: map<Status, seq<Id>>, s: Status)
    requires Linked(m, cols) && Enumerates(all, m)
    ensures ColumnListing(all, s) == Ok(TicketsOf(m, cols[s]))
  {
    var L := cols[s];
    assert ChainOf(m, s, L);
    forall k | k in m && m[k].isRoot && m[k].status == s ensures k == L[0] {
      LinkedColumnOf(m, cols, k, s);
      var i :| 0 <= i < |L| && L[i] == k;
      assert m[L[i]].isRoot == (i == 0);
    }
    ListingFollowsChain(all, m, s, L);
  }

  /** In a well-formed table the board lists the toDo chain, then the toTest
      chain, then the done chain, and groups the same chains by status. */
  lemma LinkedBoard(all: seq<Ticket>, m: Store, cols: map<Status, seq<Id>>)
    requires Linked(m, cols) && Enumerates(all, m)
    ensures FindAllAsList(all) == Ok(TicketsOf(m, cols[ToDo] + cols[ToTest] + cols[Done]))
    ensures GetAll(all) == Ok(map[ToDo := TicketsOf(m, cols[ToDo]), ToTest := TicketsOf(m, cols[ToTest]),
                                  Done := TicketsOf(m, cols[Done])])
  {
    LinkedListing(all, m, cols, ToDo);
    LinkedListing(all, m, cols, ToTest);
    LinkedListing(all, m, cols, Done);
    TicketsOfAppend(m, cols[ToDo] + cols[ToTest], cols[Done]);
    TicketsOfAppend(m, cols[ToDo], cols[ToTest]);
  }
}
