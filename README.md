# Kanban ticket chains in Dafny

This project models the ticket service of a kanban board backend. The board has three
status columns: toDo, toTest and done. All tickets live in one flat table, keyed by id.
Each ticket names its successor in its column through `nextId`. Each column is headed by
a root ticket flagged `isRoot`.

The model covers these operations of the service:

- `save` appends a ticket to its column.
- `deleteById` splices a ticket out of its column.
- `update` overwrites a ticket's fields.
- `moveTicket` moves a ticket right after an anchor ticket, within its column or into
  another column.
- `sorted` lists one column by walking from its root.
- `findAllAsList` and `getAll` combine the three column listings.

It also models the repository's derived queries and the validation rules of a ticket
request.

The central notion is the well-formed table, written `Linked(m, cols)` in `chains.dfy`.
Here `cols` maps each status to a sequence of ids called the column listing. A table is
well formed when, for every column:

- the listing starts at the column's only root;
- following `nextId` from one element reaches the next, and the last element has no
  successor;
- no id repeats, so the chain has no cycle and no ticket has two predecessors;
- the listing holds exactly the tickets of that status.

Each mutating operation is first written as a function on the table, in `relink.dfy`.
Each of these functions makes the same writes in the same order as the service. Every
step reads the table as the previous write left it. This matters when the moved
ticket's left neighbour is the anchor itself.

Lemmas then prove what each function does to the column listings of a well-formed
table:

- an append gives `L + [new]`;
- a delete gives `L` without `x`;
- a move within a column takes `x` out and puts it back right after the anchor;
- a move across columns takes `x` out of its column and puts it after the anchor in
  the anchor's column.

The class `TicketService` in `service.dfy` holds the table and makes the writes one at a
time. Each of its methods is proved equal to the table function of its operation. Each
public mutating method (`Save`, `DeleteById`, `Update`, `MoveTicket`) also carries over
the listing lemma through a ghost `cols` parameter.

On the read side, `Listing.Sorted` is the column walk written as a loop. It is proved
equal to the recursive `Listing.ColumnListing`. On a well-formed table that listing is
the column's chain (`Listing.LinkedListing`). `update` keeps a table well formed only
when the status stays the same. After a status change of a non-root ticket, every
column still lists the chain it listed before. The updated ticket therefore appears in
its old column carrying its new status, and no column listing fits the table any more
(`Updates.OverwrittenUnlinks`). After a status change of a root, its old column has no
root left, and listing that column fails (`Updates.OverwrittenRootLeaves`).

## Model

All source paths are relative to the repository root.

| member | source | states |
|---|---|---|
| TicketRepository.FindByNextId | src/main/java/com/example/kanbanboardbackend/repository/TicketRepository.java:13 | yields a stored ticket whose successor is `x`, and yields nothing exactly when no stored ticket points at `x`; callers guarantee at most one does |
| TicketRepository.FindByNextIdAndStatus | src/main/java/com/example/kanbanboardbackend/repository/TicketRepository.java:15 | yields the stored ticket of column `s` with successor `next` (the column tail for `None`), and nothing exactly when there is none |
| TicketRepository.Contains | src/main/java/com/example/kanbanboardbackend/repository/TicketRepository.java:17 | true exactly when `t` occurs in `s` at some position |
| TicketRepository.FindByTitleContaining | src/main/java/com/example/kanbanboardbackend/repository/TicketRepository.java:17 | exactly the stored tickets whose title contains `t`, as an unordered set |
| TicketRepository.EmptySearchMatchesAll | src/main/java/com/example/kanbanboardbackend/repository/TicketRepository.java:17 | an empty search string matches every stored ticket |
| Chains.Remove | src/main/java/com/example/kanbanboardbackend/services/TicketServiceImpl.java:82-93 | the listing-level effect of a delete: exactly the elements of `L` other than `x` remain |
| Chains.InsertAfter | src/main/java/com/example/kanbanboardbackend/services/TicketServiceImpl.java:149-153 | the listing-level effect of relinking after an anchor in `L`: the elements of `L` plus `x` |
| Chains.RemoveAt | src/main/java/com/example/kanbanboardbackend/services/TicketServiceImpl.java:86-92 | removing an element that occurs once cuts it out at its position, keeping the order of the rest |
| Chains.InsertAfterAt | src/main/java/com/example/kanbanboardbackend/services/TicketServiceImpl.java:149-153 | inserting after an element that occurs once puts `x` right behind it, keeping the order of the rest |
| Chains.LinkedNoFork | src/main/java/com/example/kanbanboardbackend/repository/TicketRepository.java:13 | in a well-formed table no two tickets share a successor, so the predecessor lookup has at most one answer |
| Chains.LinkedPredecessor | src/main/java/com/example/kanbanboardbackend/services/TicketServiceImpl.java:86-91 | in a well-formed table the left neighbour found by successor is the previous element of the listing, and the root has none |
| Chains.LinkedTail | src/main/java/com/example/kanbanboardbackend/services/TicketServiceImpl.java:55-58 | in a well-formed table the column tail lookup has one answer: the last element of the column's listing |
| Chains.LinkedColumnOf | src/main/java/com/example/kanbanboardbackend/services/TicketServiceImpl.java:176-197 | in a well-formed table a ticket is in column `s`'s listing exactly when its status is `s` |
| Relink.Appended | src/main/java/com/example/kanbanboardbackend/services/TicketServiceImpl.java:25-40 | save: the new ticket enters with no successor and no root mark; the old tail of its column, if any, now points at it; nothing else changes |
| Relink.SplicedOut | src/main/java/com/example/kanbanboardbackend/services/TicketServiceImpl.java:82-93 | delete: the ticket leaves the table; its left neighbour takes over its successor; nothing else changes |
| Relink.Unlinked | src/main/java/com/example/kanbanboardbackend/services/TicketServiceImpl.java:144-148 | the first move write changes no key of the table |
| Relink.Relinked | src/main/java/com/example/kanbanboardbackend/services/TicketServiceImpl.java:144-153 | the three move writes change no key of the table |
| Relink.RelinkedFrame | src/main/java/com/example/kanbanboardbackend/services/TicketServiceImpl.java:144-153 | the move writes change successor pointers only, and only those of the moved ticket, the anchor and the moved ticket's left neighbour |
| Relink.MovedWithin | src/main/java/com/example/kanbanboardbackend/services/TicketServiceImpl.java:138-154 | moving a ticket after itself leaves the table as it was; no move changes the keys |
| Relink.MovedAcross | src/main/java/com/example/kanbanboardbackend/services/TicketServiceImpl.java:156-174 | the cross-column move changes no key of the table |
| Relink.MovedAcrossFrame | src/main/java/com/example/kanbanboardbackend/services/TicketServiceImpl.java:156-174 | the cross-column move gives the moved ticket the anchor's status; otherwise it changes only successor pointers of the moved ticket, the anchor and the left neighbour |
| Relink.Overwritten | src/main/java/com/example/kanbanboardbackend/services/TicketServiceImpl.java:101-107 | update: title, content and status are replaced; successor and root mark stay; every other ticket is unchanged |
| Relink.AppendedLinked | src/main/java/com/example/kanbanboardbackend/services/TicketServiceImpl.java:25-40 | on a well-formed table, save keeps it well formed; the column listing becomes `L + [id]` and the other columns keep theirs |
| Relink.SplicedOutLinked | src/main/java/com/example/kanbanboardbackend/services/TicketServiceImpl.java:82-93 | on a well-formed table, deleting a non-root ticket keeps it well formed; its column listing loses exactly that ticket |
| Relink.UntouchedColumn | src/main/java/com/example/kanbanboardbackend/services/TicketServiceImpl.java:25-40 | a column whose tickets a write leaves alone, and into which it brings none, keeps its listing |
| Moves.MovedWithinLinked | src/main/java/com/example/kanbanboardbackend/services/TicketServiceImpl.java:138-154 | on a well-formed table, moving a non-root ticket after another ticket of its column keeps the table well formed; the listing becomes `InsertAfter(Remove(L, x), a, x)` and the other columns keep theirs |
| Moves.MovedAcrossLinked | src/main/java/com/example/kanbanboardbackend/services/TicketServiceImpl.java:156-174 | on a well-formed table, moving a non-root ticket after a ticket of another column keeps the table well formed; the old column loses it, the anchor's column gains it right after the anchor, and the third column keeps its listing |
| Listing.FirstRoot | src/main/java/com/example/kanbanboardbackend/services/TicketServiceImpl.java:177-179 | yields a row that is a root of column `s`, and yields nothing exactly when no row is |
| Listing.FirstRootIsFirst | src/main/java/com/example/kanbanboardbackend/services/TicketServiceImpl.java:177-179 | the root found is the first matching row: no earlier row is a root of column `s` |
| Listing.ById | src/main/java/com/example/kanbanboardbackend/services/TicketServiceImpl.java:185-188 | the id-to-row map holds every row under its own id and nothing else |
| Listing.Walk | src/main/java/com/example/kanbanboardbackend/services/TicketServiceImpl.java:190-195 | a successful walk starts at the given ticket, each listed ticket points at the next one, and it stops at a ticket whose successor is absent or not in the table; a failure is reported as CycleFound |
| Listing.WalkRows | src/main/java/com/example/kanbanboardbackend/services/TicketServiceImpl.java:190-195 | every ticket a successful walk lists is the table's row for its id, and none was listed before the walk started |
| Listing.WalkDistinct | src/main/java/com/example/kanbanboardbackend/services/TicketServiceImpl.java:190-195 | a successful walk lists each ticket at most once |
| Listing.WalkCycle | src/main/java/com/example/kanbanboardbackend/services/TicketServiceImpl.java:190-195 | the walk fails only when following successor pointers from its start, through tickets not yet listed, comes back to a ticket already listed |
| Listing.ColumnListing | src/main/java/com/example/kanbanboardbackend/services/TicketServiceImpl.java:176-197 | fails with NoRootFound exactly when column `s` has no root; otherwise the listing starts with a root of column `s` |
| Listing.Sorted | src/main/java/com/example/kanbanboardbackend/services/TicketServiceImpl.java:176-197 | the loop that appends the current ticket and follows its successor computes the column listing |
| Listing.FindAllAsList | src/main/java/com/example/kanbanboardbackend/services/TicketServiceImpl.java:61-70 | succeeds exactly when all three column listings do, and is then toDo, toTest and done concatenated in that order |
| Listing.GetAll | src/main/java/com/example/kanbanboardbackend/services/TicketServiceImpl.java:115-122 | succeeds exactly when the concatenated listing does, with the same error otherwise; maps each of the three statuses to its column listing |
| Listing.WalkChain | src/main/java/com/example/kanbanboardbackend/services/TicketServiceImpl.java:190-195 | walking a chain from its `i`-th element lists exactly the rest of the chain |
| Listing.ListingFollowsChain | src/main/java/com/example/kanbanboardbackend/services/TicketServiceImpl.java:176-197 | a column whose only root heads a chain is listed as that chain, whatever the row order of the table |
| Listing.LinkedListing | src/main/java/com/example/kanbanboardbackend/services/TicketServiceImpl.java:176-197 | in a well-formed table each column is listed as the tickets of its column listing, in order |
| Listing.LinkedBoard | src/main/java/com/example/kanbanboardbackend/services/TicketServiceImpl.java:61-70 | in a well-formed table the board is the toDo, toTest and done chains in that order, and the grouped board maps each status to its chain |
| Updates.OverwrittenLinked | src/main/java/com/example/kanbanboardbackend/services/TicketServiceImpl.java:101-107 | an update that keeps the status keeps the table well formed with the same listings |
| Updates.OverwrittenListing | src/main/java/com/example/kanbanboardbackend/services/TicketServiceImpl.java:101-107 | after any update of a non-root ticket every column is listed along the chain it had before |
| Updates.OverwrittenUnlinks | src/main/java/com/example/kanbanboardbackend/services/TicketServiceImpl.java:101-107 | an update that changes the status of a non-root ticket leaves a table that is well formed for no column listings at all |
| Updates.OverwrittenRootLeaves | src/main/java/com/example/kanbanboardbackend/services/TicketServiceImpl.java:101-107 | an update that changes the status of a root leaves its old column without a root, so listing that column fails with NoRootFound |
| Updates.ListedStatuses | src/main/java/com/example/kanbanboardbackend/services/TicketServiceImpl.java:176-197 | in a well-formed table a column's listing shows only tickets of that column's status |
| Service.TicketService.FindById | src/main/java/com/example/kanbanboardbackend/services/TicketServiceImpl.java:44-53 | the stored ticket when the id is present, TicketNotFound exactly when it is absent |
| Service.TicketService.FindLast | src/main/java/com/example/kanbanboardbackend/services/TicketServiceImpl.java:55-58 | a stored ticket of column `s` without successor, and nothing exactly when there is none |
| Service.TicketService.Save | src/main/java/com/example/kanbanboardbackend/services/TicketServiceImpl.java:25-40 | the table becomes `Appended(old, ...)` and the stored new ticket is returned; a well-formed table stays well formed with `L + [id]` |
| Service.TicketService.DeleteById | src/main/java/com/example/kanbanboardbackend/services/TicketServiceImpl.java:82-93 | an absent id fails with TicketNotFound and changes nothing, so a second delete fails; otherwise the table becomes `SplicedOut(old, id)`, and a well-formed table stays well formed without `id` |
| Service.TicketService.Update | src/main/java/com/example/kanbanboardbackend/services/TicketServiceImpl.java:101-107 | an absent id fails and changes nothing; otherwise the table becomes `Overwritten(old, ...)` and the stored ticket is returned; with the status kept a well-formed table stays well formed |
| Service.TicketService.MoveTicket | src/main/java/com/example/kanbanboardbackend/services/TicketServiceImpl.java:126-136 | either id absent: TicketNotFound and nothing changes; otherwise the same-column or cross-column move by status, with a self-move changing nothing and the listing changes of the two move lemmas |
| Service.TicketService.MoveWithinStatus | src/main/java/com/example/kanbanboardbackend/services/TicketServiceImpl.java:138-154 | the step-by-step writes equal `MovedWithin(old, moved, anchor)` |
| Service.TicketService.MoveToOtherStatus | src/main/java/com/example/kanbanboardbackend/services/TicketServiceImpl.java:156-174 | the status write and the three relinking writes equal `MovedAcross(old, moved, anchor)` |
| Service.TicketService.RelinkAfter | src/main/java/com/example/kanbanboardbackend/services/TicketServiceImpl.java:144-153 | the three writes, each reading the entity as the earlier ones left it, equal `Relinked(old, x, a)` |
| TicketValidation.Violations | src/main/java/com/example/kanbanboardbackend/model/Ticket.java:16-21 | a blank title, a title length outside 3..15 and a blank content each raise their violation, exactly then; the status raises none |
| TicketValidation.Trim | src/main/java/com/example/kanbanboardbackend/model/Ticket.java:16 | trimming keeps a contiguous slice of the value that neither starts nor ends with a character at or below the space, and drops only such characters on either side of it |
| TicketValidation.BlankIffAllTrimmed | src/main/java/com/example/kanbanboardbackend/model/Ticket.java:16-20 | a value is blank exactly when it is absent or consists of characters at or below the space only |
| TicketValidation.ValidIff | src/main/java/com/example/kanbanboardbackend/model/Ticket.java:16-21 | a request is valid exactly when the title is present, 3 to 15 characters long and not blank, and the content is present and not blank |
| TicketValidation.FirstIsValid | src/test/java/com/example/kanbanboardbackend/controller/TicketControllerTest.java:48-66 | the request with title "First" and content "First" is valid |
| TicketValidation.IncompleteIsInvalid | src/test/java/com/example/kanbanboardbackend/controller/TicketControllerTest.java:81-112 | empty title and content, or absent title and empty content, raise the blank and length violations |
| Scenarios.AppendToEmpty | src/test/java/com/example/kanbanboardbackend/KanbanBoardBackendApplicationTests.java:144-155 | the first save into an empty table stores the ticket without successor, and it is then the column's tail |
| Scenarios.AppendSecond | src/test/java/com/example/kanbanboardbackend/KanbanBoardBackendApplicationTests.java:112-140 | the second save links the first ticket to the second |
| Scenarios.AppendThird | src/test/java/com/example/kanbanboardbackend/KanbanBoardBackendApplicationTests.java:112-140 | the third save links the second ticket to the third, so three saves link in creation order and the last has no successor |
| Scenarios.DeleteSecond | src/test/java/com/example/kanbanboardbackend/KanbanBoardBackendApplicationTests.java:159-185 | deleting the middle of three linked tickets links the first to the third and removes the second |
| Scenarios.SeededLinked | src/test/java/com/example/kanbanboardbackend/KanbanBoardBackendApplicationTests.java:40-65 | the seeded board of three roots and three toDo tickets is well formed |
| Scenarios.SeededListing | src/test/java/com/example/kanbanboardbackend/KanbanBoardBackendApplicationTests.java:68-77 | a well-formed board shaped like the seeded one lists as root, first, second, third, toTest root, done root |
| Scenarios.MovingFirstToBeLast | src/test/java/com/example/kanbanboardbackend/KanbanBoardBackendApplicationTests.java:238-250 | moving 1 after 3 in toDo `[root, 1, 2, 3]` gives `[root, 2, 3, 1]`, other columns unchanged |
| Scenarios.MovingLastToBeFirst | src/test/java/com/example/kanbanboardbackend/KanbanBoardBackendApplicationTests.java:252-265 | moving 3 after 1 gives `[root, 1, 3, 2]`, other columns unchanged |
| Scenarios.MovingToEmptyList | src/test/java/com/example/kanbanboardbackend/KanbanBoardBackendApplicationTests.java:268-284 | moving 3 after the toTest root gives toDo `[root, 1, 2]` and toTest `[root, 3]`, done unchanged |

## Left out

- Persistence: the JPA repository, its transactions and its flushing are not modelled.
  Each service method is one atomic method over the table. Managed entities are
  modelled by reading every ticket from the current table.
- Id generation: the UUID generator is not modelled. `Service.TicketService.Save` takes
  the fresh id as a parameter and requires that it is not in the table.
- Concurrency: concurrent requests are not modelled.
- The non-unique-result failure of the derived queries is not modelled. Where the
  source assumes one answer, the model requires it instead (`AtMostOnePredecessor`,
  `AtMostOneWith`). On a well-formed table these always hold, by `Chains.LinkedNoFork`
  and `Chains.LinkedTail`.
- The duplicate-key failure of building the id map in `sorted` is not modelled. The
  listing functions require that no two rows share an id. The table's primary key
  guarantees this.
- The row order returned by `findAll` is not modelled. The listing functions take the
  rows in any order. `Listing.ListingFollowsChain` holds for every order.
- Listing.Walk, Listing.Sorted: where a corrupted table makes the column chain run into
  itself, the source loop never ends. The model stops and reports `CycleFound`
  instead. On a well-formed table this cannot happen (`Listing.LinkedListing`).
- Roots as moved, deleted or updated tickets: moving, deleting or changing the status
  of a root breaks its column, and the source does not guard against it. The listing
  lemmas require a non-root ticket; for an updated root, `Updates.OverwrittenRootLeaves`
  states the failure. The table functions and service methods still model the writes
  for roots.
- Relink.Overwritten, Service.TicketService.Update: a status change is not relinked
  into the new column, so well-formedness is proved only when the status is kept.
  The effect of a status change is stated by `Updates.OverwrittenListing` and
  `Updates.OverwrittenUnlinks`.
- The id-equality check after the status write in the cross-column helper is omitted.
  That helper runs only when the two tickets' statuses differ, so the ids always differ.
- `isRoot` is not declared on the entity class of the repository, yet `sorted` reads
  it. The model adds it to `Ticket`. A saved ticket starts with `isRoot` false.
- `findAllAsMap`, `findByNextId` as a service method, and the service interface are
  not modelled separately. They re-index or delegate to members modelled here.
- Controller: HTTP routing, status codes, exception-to-response mapping and the
  `@Valid` wiring are not modelled. The move request DTO is not modelled either. A
  move is modelled as the pair (moved id, anchor id) that the service reads.
- Validation applies to create requests only. The update endpoint of the controller
  does not validate its request, so `Service.TicketService.Update` accepts any title
  and content.
- Null fields: a request's absent title, content or status is `None`. The service
  methods take present strings and a present status.
- Title length counts Dafny characters. The source counts UTF-16 code units, so
  characters outside the Basic Multilingual Plane are measured differently.
