/** `TicketService`: support tickets raised by users, assigned to staff,
    moved through their statuses, and discussed in comments some of which
    are internal to staff. */
module Tickets {
  import opened Common

  datatype TicketStatus = Open | InProgress | Resolved | Closed

  datatype TicketPriority = Low | Medium | High | Urgent

  /** Whether a status finishes the ticket and so stamps `resolvedAt`. */
  predicate IsFinished(s: TicketStatus)
  {
    s == Resolved || s == Closed
  }

  /** One `tickets` row. Users are referred to by id; instants are ticks. */
  datatype Ticket = Ticket(
    id: int,
    title: string,
    description: string,
    status: TicketStatus,
    priority: TicketPriority,
    userId: int,
    assignedTo: Option<int>,
    createdAt: int,
    updatedAt: int,
    resolvedAt: Option<int>)

  /** `TicketRequest`. */
  datatype TicketRequest = TicketRequest(title: string, description: string, priority: TicketPriority)

  /** One `ticket_comments` row. */
  datatype TicketComment = TicketComment(
    id: int,
    ticketId: int,
    userId: int,
    comment: string,
    createdAt: int,
    isInternal: bool)

  /** `TicketResponse`: a ticket together with its visible comments. */
  datatype TicketResponse = TicketResponse(ticket: Ticket, comments: seq<TicketComment>)

  /** The request a ticket was raised with. */
  function RequestOf(t: Ticket): TicketRequest
  {
    TicketRequest(t.title, t.description, t.priority)
  }

  /** The ticket `createTicket` builds: OPEN, owned by the caller, nobody
      assigned, never resolved, created and updated at `now`. */
  function NewTicket(id: int, req: TicketRequest, userId: int, now: int): (t: Ticket)
    ensures t.id == id && RequestOf(t) == req
    ensures t.status == Open && t.userId == userId && t.assignedTo == None
    ensures t.resolvedAt == None && t.createdAt == now && t.updatedAt == now
  {
    Ticket(id, req.title, req.description, Open, req.priority, userId, None, now, now, None)
  }

  /** The assignment step: the assignee is replaced and the ticket moves to
      IN_PROGRESS whatever its status was, a finished one included. */
  function Assigned(t: Ticket, assignee: int, now: int): (r: Ticket)
    ensures r.assignedTo == Some(assignee) && r.status == InProgress && r.updatedAt == now
    ensures r.(assignedTo := t.assignedTo, status := t.status, updatedAt := t.updatedAt) == t
  {
    t.(assignedTo := Some(assignee), status := InProgress, updatedAt := now)
  }

  /** The status step: any status is accepted; a finishing one stamps
      `resolvedAt`, any other leaves it as it was. */
  function WithStatus(t: Ticket, status: TicketStatus, now: int): (r: Ticket)
    ensures r.status == status && r.updatedAt == now
    ensures IsFinished(status) ==> r.resolvedAt == Some(now)
    ensures !IsFinished(status) ==> r.resolvedAt == t.resolvedAt
    ensures r.(status := t.status, updatedAt := t.updatedAt, resolvedAt := t.resolvedAt) == t
  {
    if IsFinished(status) then t.(status := status, updatedAt := now, resolvedAt := Some(now))
    else t.(status := status, updatedAt := now)
  }

  /** Once stamped, `resolvedAt` is never cleared: neither a status change
      nor an assignment removes it. */
  lemma {:induction false} ResolvedAtIsNeverCleared(t: Ticket, status: TicketStatus, assignee: int, now: int)
    requires t.resolvedAt.Some?
    ensures WithStatus(t, status, now).resolvedAt.Some?
    ensures Assigned(t, assignee, now).resolvedAt == t.resolvedAt
  {
  }

  /** A resolved ticket that is reopened or reassigned keeps the stale
      resolution instant while being back in work. */
  lemma {:induction false} ReopenedTicketKeepsResolution(t: Ticket, reopen: TicketStatus, resolvedNow: int, now: int)
    requires !IsFinished(reopen)
    ensures var r := WithStatus(WithStatus(t, Resolved, resolvedNow), reopen, now);
      !IsFinished(r.status) && r.resolvedAt == Some(resolvedNow)
  {
  }

  /** Whether a comment is shown on ticket `ticketId`: it belongs to it and is
      not internal. */
  predicate IsPublicOf(ticketId: int, c: TicketComment)
  {
    c.ticketId == ticketId && !c.isInternal
  }

  function CreatedAt(c: TicketComment): int
  {
    c.createdAt
  }

  /** `findByTicketAndIsInternalOrderByCreatedAtAsc(ticket, false)`. */
  function PublicComments(comments: seq<TicketComment>, ticketId: int): (r: seq<TicketComment>)
    ensures SortedBy(r, CreatedAt)
    ensures multiset(r) == multiset(Where(comments, c => IsPublicOf(ticketId, c)))
    ensures forall c :: c in r <==> c in comments && IsPublicOf(ticketId, c)
  {
    var shown := Where(comments, c => IsPublicOf(ticketId, c));
    var r := SortBy(shown, CreatedAt);
    assert forall c :: c in r <==> c in multiset(r);
    r
  }

  /** A new comment reaches the listing of its own ticket exactly when it is
      public; every other listing is unchanged as a collection. */
  lemma {:induction false} NewCommentVisibility(comments: seq<TicketComment>, c: TicketComment, ticketId: int)
    ensures multiset(PublicComments(comments + [c], ticketId))
         == multiset(PublicComments(comments, ticketId))
            + (if IsPublicOf(ticketId, c) then multiset{c} else multiset{})
  {
    WhereAppend(comments, c, x => IsPublicOf(ticketId, x));
  }

  class TicketService {
    var tickets: map<int, Ticket>
    var nextId: int
    /** The `ticket_comments` table in insertion order; row i has id i + 1. */
    var comments: seq<TicketComment>

    ghost predicate Valid()
      reads this
    {
      nextId >= 1
      && (forall k :: k in tickets ==> 1 <= k < nextId && tickets[k].id == k)
      && (forall i :: 0 <= i < |comments| ==> comments[i].id == i + 1 && comments[i].ticketId in tickets)
    }

    constructor ()
      ensures Valid() && tickets == map[] && comments == []
    {
      tickets := map[];
      nextId := 1;
      comments := [];
    }

    /** `createTicket`: always succeeds and stores one new OPEN ticket. */
    method CreateTicket(req: TicketRequest, userId: int, now: int) returns (t: Ticket)
      requires Valid()
      modifies this
      ensures Valid() && comments == old(comments)
      ensures t == NewTicket(old(nextId), req, userId, now)
      ensures tickets == old(tickets)[t.id := t] && nextId == old(nextId) + 1
    {
      t := NewTicket(nextId, req, userId, now);
      tickets := tickets[nextId := t];
      nextId := nextId + 1;
    }

    /** `getTicketComments`: "Ticket not found" for an unknown id, otherwise
        the ticket's non-internal comments, oldest first. */
    function GetTicketComments(ticketId: int): (r: Result<seq<TicketComment>>)
      reads this
      ensures r.Err? <==> ticketId !in tickets
      ensures r.Err? ==> r.failure == TicketNotFound
      ensures r.Ok? ==> SortedBy(r.value, CreatedAt)
      ensures r.Ok? ==> forall c :: c in r.value <==> c in comments && IsPublicOf(ticketId, c)
      ensures r.Ok? ==> multiset(r.value) == multiset(Where(comments, c => IsPublicOf(ticketId, c)))
    {
      if ticketId !in tickets then Err(TicketNotFound)
      else Ok(PublicComments(comments, ticketId))
    }

    /** `assignTicket`: "Ticket not found" for an unknown id; otherwise the
        assignee is set, the ticket moves to IN_PROGRESS, and the response
        carries its visible comments. */
    method AssignTicket(ticketId: int, assignee: int, now: int) returns (r: Result<TicketResponse>)
      requires Valid()
      modifies this
      ensures Valid() && nextId == old(nextId) && comments == old(comments)
      ensures r.Err? <==> ticketId !in old(tickets)
      ensures r.Err? ==> r.failure == TicketNotFound && tickets == old(tickets)
      ensures (r.Ok? ==>
        var t := Assigned(old(tickets)[ticketId], assignee, now);
        tickets == old(tickets)[ticketId := t]
        && r.value == TicketResponse(t, PublicComments(comments, ticketId)))
    {
      if ticketId !in tickets {
        return Err(TicketNotFound);
      }
      var t := Assigned(tickets[ticketId], assignee, now);
      tickets := tickets[ticketId := t];
      var shown := GetTicketComments(ticketId);
      r := Ok(TicketResponse(t, shown.value));
    }

    /** `updateTicketStatus`: "Ticket not found" for an unknown id; otherwise
        any status is taken, and a finishing one stamps `resolvedAt`. */
    method UpdateTicketStatus(ticketId: int, status: TicketStatus, userId: int, now: int)
      returns (r: Result<TicketResponse>)
      requires Valid()
      modifies this
      ensures Valid() && nextId == old(nextId) && comments == old(comments)
      ensures r.Err? <==> ticketId !in old(tickets)
      ensures r.Err? ==> r.failure == TicketNotFound && tickets == old(tickets)
      ensures (r.Ok? ==>
        var t := WithStatus(old(tickets)[ticketId], status, now);
        tickets == old(tickets)[ticketId := t]
        && r.value == TicketResponse(t, PublicComments(comments, ticketId)))
    {
      if ticketId !in tickets {
        return Err(TicketNotFound);
      }
      var t := WithStatus(tickets[ticketId], status, now);
      tickets := tickets[ticketId := t];
      var shown := GetTicketComments(ticketId);
      r := Ok(TicketResponse(t, shown.value));
    }

    /** `addComment`: "Ticket not found" for an unknown id; otherwise one
        comment with the given text, author and internal flag is appended. */
    method AddComment(ticketId: int, text: string, userId: int, isInternal: bool, now: int)
      returns (r: Result<TicketComment>)
      requires Valid()
      modifies this
      ensures Valid() && tickets == old(tickets) && nextId == old(nextId)
      ensures r.Err? <==> ticketId !in old(tickets)
      ensures r.Err? ==> r.failure == TicketNotFound && comments == old(comments)
      ensures (r.Ok? ==>
        r.value == TicketComment(|old(comments)| + 1, ticketId, userId, text, now, isInternal)
        && comments == old(comments) + [r.value])
    {
      if ticketId !in tickets {
        return Err(TicketNotFound);
      }
      var c := TicketComment(|comments| + 1, ticketId, userId, text, now, isInternal);
      comments := comments + [c];
      r := Ok(c);
    }
  }
}
