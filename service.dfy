/** The ticket service: one object holding the ticket table, whose methods
    make the service's writes one at a time, each reading the table as the
    previous write left it. Each method is proved equal to the table function
    of its operation, and, on a well-formed table, to realise that operation's
    change of the column listings (passed in as ghost `cols`). */
module Service {
  import opened Tickets
  import opened TicketRepository
  import opened Chains
  import opened Relink
  import opened Moves
  import opened Updates

  class TicketService {
    /** The ticket table, keyed by id. */
    var tickets: Store

    ghost predicate Valid()
      reads this
    {
      KeysMatch(tickets)
    }

    constructor (m: Store)
      requires KeysMatch(m)
      ensures Valid() && tickets == m
    {
      tickets := m;
    }

    /** findById: the stored ticket, or TicketNotFound. */
    function FindById(id: Id): (r: Result<Ticket>)
      reads this
      ensures r.Ok? <==> id in tickets
      ensures r.Ok? ==> r.value == tickets[id]
      ensures r.Err? ==> r.error == TicketNotFound
    {
      if id in tickets then Ok(tickets[id]) else Err(TicketNotFound)
    }

    /** findLast: the ticket of column `s` without successor, if any. */
    function FindLast(s: Status): (r: Option<Ticket>)
      reads this
      requires Valid() && AtMostOneWith(tickets, None, s)
      ensures r.Some? ==> r.value.id in tickets && tickets[r.value.id] == r.value && r.value.nextId.None? && r.value.status == s
      ensures r.None? <==> forall k :: k in tickets ==> !(tickets[k].nextId.None? && tickets[k].status == s)
    {
      FindByNextIdAndStatus(tickets, None, s)
    }

    /** save, with `id` the fresh id the table assigns. */
    method Save(title: string, content: string, s: Status, id: Id, ghost cols: map<Status, seq<Id>>) returns (t: Ticket)
      requires Valid() && id !in tickets && AtMostOneWith(tickets, None, s)
      modifies this
      ensures Valid()
      ensures tickets == Appended(old(tickets), id, title, content, s)
      ensures t == tickets[id]
      ensures old(Linked(tickets, cols)) ==> Linked(tickets, cols[s := cols[s] + [id]])
    {
      ghost var m := tickets;
      var lastTicket := FindLast(s);
      var newTicket := Ticket(id, title, content, s, None, false);
      if lastTicket.Some? {
        tickets := tickets[id := newTicket];
        var last := lastTicket.value.(nextId := Some(id));
        tickets := tickets[last.id := last];
        t := newTicket;
      } else {
        tickets := tickets[id := newTicket];
        t := newTicket;
      }
      if Linked(m, cols) {
        AppendedLinked(m, cols, id, title, content, s);
      }
    }

    /** deleteById: an absent id fails and changes nothing; otherwise the
        left neighbour takes over the successor and the ticket is removed. */
    method DeleteById(id: Id, ghost cols: map<Status, seq<Id>>) returns (r: Result<()>)
      requires Valid() && (id in tickets ==> AtMostOnePredecessor(tickets, id))
      modifies this
      ensures Valid()
      ensures id !in old(tickets) ==> r == Err(TicketNotFound) && tickets == old(tickets)
      ensures id in old(tickets) ==> r == Ok(()) && tickets == SplicedOut(old(tickets), id)
      ensures old(Linked(tickets, cols)) && id in old(tickets) && !old(tickets[id].isRoot) ==>
                Linked(tickets, cols[old(tickets[id].status) := Remove(cols[old(tickets[id].status)], id)])
    {
      ghost var m := tickets;
      var found := FindById(id);
      if found.Err? {
        return Err(found.error);
      }
      var foundById := found.value;
      var leftNeighbor := FindByNextId(tickets, id);
      if leftNeighbor.Some? {
        var left := leftNeighbor.value.(nextId := foundById.nextId);
        tickets := tickets[left.id := left];
      }
      tickets := tickets - {id};
      r := Ok(());
      if Linked(m, cols) && !m[id].isRoot {
        SplicedOutLinked(m, cols, id);
      }
    }

    /** update: an absent id fails and changes nothing; otherwise title,
        content and status are overwritten. */
    method Update(id: Id, title: string, content: string, s: Status, ghost cols: map<Status, seq<Id>>)
      returns (r: Result<Ticket>)
      requires Valid()
      modifies this
      ensures Valid()
      ensures id !in old(tickets) ==> r == Err(TicketNotFound) && tickets == old(tickets)
      ensures id in old(tickets) ==> tickets == Overwritten(old(tickets), id, title, content, s) && r == Ok(tickets[id])
      ensures old(Linked(tickets, cols)) && id in old(tickets) && s == old(tickets[id].status) ==> Linked(tickets, cols)
    {
      ghost var m := tickets;
      var found := FindById(id);
      if found.Err? {
        return Err(found.error);
      }
      var byId := found.value.(content := content);
      byId := byId.(status := s);
      byId := byId.(title := title);
      tickets := tickets[id := byId];
      r := Ok(byId);
      if Linked(m, cols) && s == m[id].status {
        OverwrittenLinked(m, cols, id, title, content);
      }
    }

    /** moveTicket: both ids are looked up before any write; a missing one
        fails and changes nothing. Otherwise the move helper for the same or
        for another column runs. */
    method MoveTicket(movedId: Id, afterId: Id, ghost cols: map<Status, seq<Id>>) returns (r: Result<()>)
      requires Valid() && (movedId in tickets ==> AtMostOnePredecessor(tickets, movedId))
      modifies this
      ensures Valid()
      ensures movedId !in old(tickets) || afterId !in old(tickets) ==> r == Err(TicketNotFound) && tickets == old(tickets)
      ensures movedId in old(tickets) && afterId in old(tickets) ==>
                r == Ok(()) &&
                tickets == (if old(tickets[movedId].status) == old(tickets[afterId].status)
                            then MovedWithin(old(tickets), movedId, afterId)
                            else MovedAcross(old(tickets), movedId, afterId))
      ensures old(Linked(tickets, cols)) && movedId in old(tickets) && afterId in old(tickets) && movedId == afterId ==>
                Linked(tickets, cols)
      ensures old(Linked(tickets, cols)) && movedId in old(tickets) && afterId in old(tickets) && movedId != afterId &&
              !old(tickets[movedId].isRoot) && old(tickets[movedId].status) == old(tickets[afterId].status) ==>
                var s := old(tickets[movedId].status);
                Linked(tickets, cols[s := InsertAfter(Remove(cols[s], movedId), afterId, movedId)])
      ensures old(Linked(tickets, cols)) && movedId in old(tickets) && afterId in old(tickets) &&
              !old(tickets[movedId].isRoot) && old(tickets[movedId].status) != old(tickets[afterId].status) ==>
                var s := old(tickets[movedId].status);
                var t := old(tickets[afterId].status);
                Linked(tickets, cols[s := Remove(cols[s], movedId)][t := InsertAfter(cols[t], afterId, movedId)])
    {
      ghost var m := tickets;
      var moved := FindById(movedId);
      if moved.Err? {
        return Err(moved.error);
      }
      var after := FindById(afterId);
      if after.Err? {
        return Err(after.error);
      }
      if moved.value.status == after.value.status {
        MoveWithinStatus(moved.value, after.value);
        if Linked(m, cols) && movedId != afterId && !m[movedId].isRoot {
          MovedWithinLinked(m, cols, movedId, afterId);
        }
      } else {
        MoveToOtherStatus(moved.value, after.value);
        if Linked(m, cols) && !m[movedId].isRoot {
          MovedAcrossLinked(m, cols, movedId, afterId);
        }
      }
      r := Ok(());
    }

    /** The same-column move helper: nothing happens when the ticket is moved
        after itself; otherwise its left neighbour is relinked past it, it
        takes over the anchor's successor, and the anchor points at it. */
    method MoveWithinStatus(movedTicket: Ticket, afterThisOne: Ticket)
      requires Valid() && movedTicket.id in tickets && tickets[movedTicket.id] == movedTicket
      requires afterThisOne.id in tickets && tickets[afterThisOne.id] == afterThisOne
      requires AtMostOnePredecessor(tickets, movedTicket.id)
      modifies this
      ensures Valid()
      ensures tickets == MovedWithin(old(tickets), movedTicket.id, afterThisOne.id)
    {
      if movedTicket.id == afterThisOne.id {
        return;
      }
      RelinkAfter(movedTicket.id, afterThisOne.id);
    }

    /** The cross-column move helper: the moved ticket takes the anchor's
        status, then the same three writes as within a column. */
    method MoveToOtherStatus(movedTicket: Ticket, afterThisOne: Ticket)
      requires Valid() && movedTicket.id in tickets && tickets[movedTicket.id] == movedTicket
      requires afterThisOne.id in tickets && tickets[afterThisOne.id] == afterThisOne
      requires AtMostOnePredecessor(tickets, movedTicket.id)
      modifies this
      ensures Valid()
      ensures tickets == MovedAcross(old(tickets), movedTicket.id, afterThisOne.id)
    {
      var moved := tickets[movedTicket.id].(status := afterThisOne.status);
      tickets := tickets[moved.id := moved];
      RelinkAfter(movedTicket.id, afterThisOne.id);
    }

    /** The three writes both move helpers share, each reading the entity
        as the earlier writes left it. */
    method RelinkAfter(x: Id, a: Id)
      requires Valid() && x in tickets && a in tickets && AtMostOnePredecessor(tickets, x)
      modifies this
      ensures Valid()
      ensures tickets == Relinked(old(tickets), x, a)
    {
      ghost var m := tickets;
      var leftNeighbor := FindByNextId(tickets, x);
      if leftNeighbor.Some? {
        var left := leftNeighbor.value.(nextId := tickets[x].nextId);
        tickets := tickets[left.id := left];
      }
      var moved := tickets[x].(nextId := tickets[a].nextId);
      tickets := tickets[x := moved];
      var anchor := tickets[a].(nextId := Some(x));
      tickets := tickets[a := anchor];
      RelinkedFrame(m, x, a);
    }
  }
}
