/** The board scenarios the service is exercised on: three tickets appended to
    an empty table, a deletion from the middle of them, and moves on the
    seeded board of three roots and three toDo tickets. */
module Scenarios {
  import opened Tickets
  import opened TicketRepository
  import opened Chains
  import opened Relink
  import opened Moves
  import opened Listing

  /** A new ticket of column `s` with no successor. */
  function Fresh(id: Id, title: string, s: Status): Ticket {
    Ticket(id, title, "content", s, None, false)
  }

  /** The first save into an empty table stores the ticket alone, without
      successor, and the column's tail is then that ticket. */
  lemma AppendToEmpty(a: Id)
    ensures Appended(map[], a, "first", "content", ToDo) == map[a := Fresh(a, "first", ToDo)]
    ensures FindByNextIdAndStatus(map[a := Fresh(a, "first", ToDo)], None, ToDo) == Some(Fresh(a, "first", ToDo))
  {
    var m: Store := map[a := Fresh(a, "first", ToDo)];
    assert AtMostOneWith(m, None, ToDo);
  }

  /** The second save links the first ticket to the second. */
  lemma AppendSecond(a: Id, b: Id)
    requires a != b
    ensures AtMostOneWith(map[a := Fresh(a, "first", ToDo)], None, ToDo)
    ensures Appended(map[a := Fresh(a, "first", ToDo)], b, "second", "content", ToDo)
         == map[a := Fresh(a, "first", ToDo).(nextId := Some(b)), b := Fresh(b, "second", ToDo)]
  {
  }

  /** The third save links the second ticket to the third: three saves link
      the tickets in creation order. */
  lemma AppendThird(a: Id, b: Id, c: Id)
    requires a != b && b != c && a != c
    ensures var m := map[a := Fresh(a, "first", ToDo).(nextId := Some(b)), b := Fresh(b, "second", ToDo)];
            AtMostOneWith(m, None, ToDo)
            && Appended(m, c, "third", "content", ToDo)
               == map[a := Fresh(a, "first", ToDo).(nextId := Some(b)), b := Fresh(b, "second", ToDo).(nextId := Some(c)),
                      c := Fresh(c, "third", ToDo)]
  {
    var m := map[a := Fresh(a, "first", ToDo).(nextId := Some(b)), b := Fresh(b, "second", ToDo)];
    assert AtMostOneWith(m, None, ToDo);
  }

  /** Deleting the second of three linked tickets links the first to the
      third; the second is then absent, so deleting it again fails. */
  lemma DeleteSecond(a: Id, b: Id, c: Id)
    requires a != b && b != c && a != c
    ensures var m := map[a := Fresh(a, "first", ToDo).(nextId := Some(b)), b := Fresh(b, "second", ToDo).(nextId := Some(c)),
                         c := Fresh(c, "third", ToDo)];
            AtMostOnePredecessor(m, b)
            && SplicedOut(m, b) == map[a := Fresh(a, "first", ToDo).(nextId := Some(c)), c := Fresh(c, "third", ToDo)]
  {
    var m := map[a := Fresh(a, "first", ToDo).(nextId := Some(b)), b := Fresh(b, "second", ToDo).(nextId := Some(c)),
                 c := Fresh(c, "third", ToDo)];
    assert AtMostOnePredecessor(m, b);
    assert FindByNextId(m, b) == Some(m[a]);
  }

  /** The ids of the seeded board. */
  datatype Seed = Seed(rootToDo: Id, rootToTest: Id, rootDone: Id, first: Id, second: Id, third: Id)

  /** The seeded ids are pairwise different. */
  predicate Apart(d: Seed) {
    && d.rootToDo != d.rootToTest && d.rootToDo != d.rootDone && d.rootToDo != d.first
    && d.rootToDo != d.second && d.rootToDo != d.third
    && d.rootToTest != d.rootDone && d.rootToTest != d.first && d.rootToTest != d.second && d.rootToTest != d.third
    && d.rootDone != d.first && d.rootDone != d.second && d.rootDone != d.third
    && d.first != d.second && d.first != d.third && d.second != d.third
  }

  /** The seeded board: a root per column and three toDo tickets after the
      toDo root. */
  function Seeded(d: Seed): Store {
    map[d.rootToDo := Ticket(d.rootToDo, "toDoRoot", "toDoRoot", ToDo, Some(d.first), true),
        d.rootToTest := Ticket(d.rootToTest, "toTestRoot", "toTestRoot", ToTest, None, true),
        d.rootDone := Ticket(d.rootDone, "doneRoot", "doneRoot", Done, None, true),
        d.first := Ticket(d.first, "first toDo", "First ToDo", ToDo, Some(d.second), false),
        d.second := Ticket(d.second, "second toDo", "Second ToDo", ToDo, Some(d.third), false),
        d.third := Ticket(d.third, "third toDo", "Third ToDo", ToDo, None, false)]
  }

  /** The column listings of the seeded board. */
  function SeededCols(d: Seed): map<Status, seq<Id>> {
    map[ToDo := [d.rootToDo, d.first, d.second, d.third], ToTest := [d.rootToTest], Done := [d.rootDone]]
  }

  lemma SeededToDo(d: Seed)
    requires Apart(d)
    ensures ChainOf(Seeded(d), ToDo, [d.rootToDo, d.first, d.second, d.third])
  {
    var m := Seeded(d);
    var L := [d.rootToDo, d.first, d.second, d.third];
    assert forall i :: 0 <= i < |L| ==> L[i] in m && m[L[i]].isRoot == (i == 0) && m[L[i]].nextId == Succ(L, i);
  }

  lemma SeededRoot(d: Seed, root: Id, s: Status)
    requires Apart(d) && s != ToDo
    requires (s == ToTest && root == d.rootToTest) || (s == Done && root == d.rootDone)
    ensures ChainOf(Seeded(d), s, [root])
  {
    var m := Seeded(d);
    assert m[root] == Ticket(root, m[root].title, m[root].content, s, None, true);
    forall k | k in m && m[k].status == s ensures k == root {
    }
  }

  /** The seeded board is well formed. */
  lemma SeededLinked(d: Seed)
    requires Apart(d)
    ensures Linked(Seeded(d), SeededCols(d))
  {
    var m := Seeded(d);
    var cols := SeededCols(d);
    forall u: Status ensures u in cols && ChainOf(m, u, cols[u]) {
      match u
      case ToDo => SeededToDo(d);
      case ToTest => SeededRoot(d, d.rootToTest, ToTest);
      case Done => SeededRoot(d, d.rootDone, Done);
    }
  }

  /** The listing of a six-id sequence whose ids are all in the table. */
  lemma TicketsOfSix(m: Store, L: seq<Id>)
    requires |L| == 6 && forall i :: 0 <= i < 6 ==> L[i] in m
    ensures TicketsOf(m, L) == [m[L[0]], m[L[1]], m[L[2]], m[L[3]], m[L[4]], m[L[5]]]
  {
  }

  /** A well-formed board shaped like the seeded one (toDo holds its root and
      three tickets, toTest and done only their roots) is listed root first,
      column by column. */
  lemma SeededListing(all: seq<Ticket>, m: Store, cols: map<Status, seq<Id>>, r: Id, a: Id, b: Id, c: Id, t: Id, e: Id)
    requires Linked(m, cols) && Enumerates(all, m)
    requires cols[ToDo] == [r, a, b, c] && cols[ToTest] == [t] && cols[Done] == [e]
    ensures r in m && a in m && b in m && c in m && t in m && e in m
    ensures FindAllAsList(all) == Ok([m[r], m[a], m[b], m[c], m[t], m[e]])
  {
    BoardIds(m, cols, [r, a, b, c, t, e]);
    LinkedBoard(all, m, cols);
    TicketsOfSix(m, [r, a, b, c, t, e]);
  }

  /** The ids of the three columns, one after another, are in the table. */
  lemma BoardIds(m: Store, cols: map<Status, seq<Id>>, L: seq<Id>)
    requires Linked(m, cols) && L == cols[ToDo] + cols[ToTest] + cols[Done]
    ensures forall i :: 0 <= i < |L| ==> L[i] in m
  {
    assert ChainOf(m, ToDo, cols[ToDo]) && ChainOf(m, ToTest, cols[ToTest]) && ChainOf(m, Done, cols[Done]);
  }

  /** What a well-formed table says about a toDo column [root, 1, 2, 3]. */
  lemma ToDoOfFour(m: Store, cols: map<Status, seq<Id>>, r: Id, a: Id, b: Id, c: Id)
    requires Linked(m, cols) && cols[ToDo] == [r, a, b, c]
    ensures a in m && c in m && m[a].status == ToDo && m[c].status == ToDo && !m[a].isRoot && !m[c].isRoot
    ensures Distinct([r, a, b, c]) && a != c
  {
    var L := cols[ToDo];
    assert ChainOf(m, ToDo, L);
    assert L[1] == a && L[3] == c;
  }

  /** [root, 1, 2, 3] with 1 moved after 3. */
  lemma FirstAfterLast(r: Id, a: Id, b: Id, c: Id)
    requires Distinct([r, a, b, c])
    ensures InsertAfter(Remove([r, a, b, c], a), c, a) == [r, b, c, a]
  {
    var L := [r, a, b, c];
    RemoveAt(L, 1);
    var L' := [r, b, c];
    assert L[..1] + L[2..] == L';
    InsertAfterAt(L', 2, a);
    assert L'[..3] + [a] + L'[3..] == [r, b, c, a];
  }

  /** [root, 1, 2, 3] with 3 moved after 1. */
  lemma LastAfterFirst(r: Id, a: Id, b: Id, c: Id)
    requires Distinct([r, a, b, c])
    ensures InsertAfter(Remove([r, a, b, c], c), a, c) == [r, a, c, b]
  {
    var L := [r, a, b, c];
    RemoveAt(L, 3);
    var L' := [r, a, b];
    assert L[..3] + L[4..] == L';
    InsertAfterAt(L', 1, c);
    assert L'[..2] + [c] + L'[2..] == [r, a, c, b];
  }

  /** On any well-formed board whose toDo column is [root, 1, 2, 3], moving 1
      after 3 gives [root, 2, 3, 1] and leaves the other columns alone. */
  lemma MovingFirstToBeLast(m: Store, cols: map<Status, seq<Id>>, r: Id, a: Id, b: Id, c: Id)
    requires Linked(m, cols) && cols[ToDo] == [r, a, b, c]
    ensures a in m && c in m && AtMostOnePredecessor(m, a)
    ensures Linked(MovedWithin(m, a, c), cols[ToDo := [r, b, c, a]])
  {
    ToDoOfFour(m, cols, r, a, b, c);
    MovedWithinLinked(m, cols, a, c);
    FirstAfterLast(r, a, b, c);
  }

  /** On the same board, moving 3 after 1 gives [root, 1, 3, 2]. */
  lemma MovingLastToBeFirst(m: Store, cols: map<Status, seq<Id>>, r: Id, a: Id, b: Id, c: Id)
    requires Linked(m, cols) && cols[ToDo] == [r, a, b, c]
    ensures a in m && c in m && AtMostOnePredecessor(m, c)
    ensures Linked(MovedWithin(m, c, a), cols[ToDo := [r, a, c, b]])
  {
    ToDoOfFour(m, cols, r, a, b, c);
    MovedWithinLinked(m, cols, c, a);
    LastAfterFirst(r, a, b, c);
  }

  /** [root, 1, 2, 3] without 3, and [root] with 3 after the root. */
  lemma LastToOther(r: Id, a: Id, b: Id, c: Id, t: Id)
    requires Distinct([r, a, b, c])
    ensures Remove([r, a, b, c], c) == [r, a, b]
    ensures InsertAfter([t], t, c) == [t, c]
  {
    var L := [r, a, b, c];
    RemoveAt(L, 3);
    assert L[..3] + L[4..] == [r, a, b];
  }

  /** On a well-formed board whose toTest column holds only its root, moving
      the last toDo ticket after that root takes it out of toDo and makes it
      the only ticket of toTest after the root. */
  lemma MovingToEmptyList(m: Store, cols: map<Status, seq<Id>>, r: Id, a: Id, b: Id, c: Id, t: Id)
    requires Linked(m, cols) && cols[ToDo] == [r, a, b, c] && cols[ToTest] == [t]
    ensures c in m && t in m && AtMostOnePredecessor(m, c)
    ensures Linked(MovedAcross(m, c, t), cols[ToDo := [r, a, b]][ToTest := [t, c]])
  {
    ToDoOfFour(m, cols, r, a, b, c);
    assert ChainOf(m, ToTest, cols[ToTest]);
    assert cols[ToTest][0] == t;
    MovedAcrossLinked(m, cols, c, t);
    LastToOther(r, a, b, c, t);
  }
}
