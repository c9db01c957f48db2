/** The ticket entity of the kanban board and the error kinds of its service.

    A ticket lives in exactly one status column; its `nextId` names the ticket
    right after it in that column, and `isRoot` marks the sentinel ticket that
    heads each column. */
module Tickets {

  datatype Option<+T> = None | Some(value: T)

  /** The three columns of the board, in the order the board lists them. */
  datatype Status = ToDo | ToTest | Done

  /** Ticket ids are opaque strings (UUIDs in the persistent table). */
  type Id = string

  datatype Ticket = Ticket(
    id: Id,
    title: string,
    content: string,
    status: Status,
    nextId: Option<Id>,
    isRoot: bool)

  /** The failures the service reports: an absent id (TicketNotFoundException),
      a column without a root ticket (IllegalStateException while listing), and a
      column chain that runs into itself, which the listing walk reports instead
      of looping. */
  datatype Error = TicketNotFound | NoRootFound(status: Status) | CycleFound(status: Status)

  datatype Result<+T> = Ok(value: T) | Err(error: Error)

  /** The persistent table: tickets keyed by id. */
  type Store = map<Id, Ticket>

  /** The table's primary key is the ticket's own id. */
  ghost predicate KeysMatch(m: Store) {
    forall k {:trigger m[k]} :: k in m ==> m[k].id == k
  }
}
