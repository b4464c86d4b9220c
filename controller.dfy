/** TicketController: the role test on the caller's authorities, the
    ownership check on a single ticket, the status chosen for a list, and
    the role gates in front of the three writes.

    The controller keeps no state. Each handler is a function of the caller,
    the two tables and the request; a write handler returns its outcome with
    the new ticket table, computed by the service's specification function,
    which TicketService's methods are proved to implement. */
module Controller {
  import opened Domain
  import opened Repository
  import opened Tickets
  import opened UserDetailsService

  /** The authenticated caller: its name (the email it logged in with) and
      the authorities it was granted. */
  datatype Authentication = Authentication(name: string, authorities: seq<string>)

  /** The principal a loaded user becomes once authenticated. */
  function AuthenticationOf(d: UserDetails): Authentication {
    Authentication(d.username, d.authorities)
  }

  datatype HttpStatus = HttpOk | HttpCreated | HttpBadRequest | HttpForbidden

  /** The data field of the response envelope. */
  datatype Data = NoData | OneTicket(ticket: TicketResponse) | TicketList(tickets: seq<TicketResponse>)

  /** The envelope ResponseBuilderUtil builds: message, status and data. */
  datatype Response = Response(message: string, status: HttpStatus, data: Data)

  /** What a request ends in: a response, an exception the service threw, or
      the refusal of a @PreAuthorize gate before the handler runs. */
  datatype Outcome = Responded(response: Response) | Raised(error: Error) | AccessDenied

  const ROLE_TECH: string := "ROLE_TECH"

  /** The anyMatch over the caller's authorities. */
  function IsTech(authorities: seq<string>): (b: bool)
    ensures b <==> exists i :: 0 <= i < |authorities| && authorities[i] == ROLE_TECH
  {
    if authorities == [] then false
    else if authorities[0] == ROLE_TECH then true
    else
      var rest := IsTech(authorities[1..]);
      assert forall i :: 0 < i < |authorities| ==> authorities[i] == authorities[1..][i - 1];
      rest
  }

  /** Spring's hasRole(role): the caller holds the prefixed authority, that
      is, one of its authorities names the role. */
  predicate HasRole(auth: Authentication, role: string): (b: bool)
    ensures b <==> exists a :: a in auth.authorities && NamesRole(a, role)
  {
    Authority(role) in auth.authorities
  }

  /** The controller's own test and hasRole('TECH') agree. */
  lemma IsTechIsHasRoleTech(auth: Authentication)
    ensures IsTech(auth.authorities) <==> HasRole(auth, TECH)
  {
    assert Authority(TECH) == ROLE_TECH;
  }

  // ---------------------------------------------------------------------
  // Reads

  /** GET /api/tickets: a TECH gets every ticket, anyone else the tickets
      requested under its own name; an empty list is answered BAD_REQUEST. */
  function ListTickets(auth: Authentication, users: map<int, User>, tickets: map<int, Ticket>): (o: Outcome)
    ensures !o.AccessDenied?
    ensures o.Raised? ==> o.error == UserNotFound
    ensures o.Responded? ==> o.response.message == "Tickets obtenidos correctamente" && o.response.data.TicketList?
    ensures o.Responded? ==> (o.response.status == HttpBadRequest <==> o.response.data.tickets == [])
    ensures o.Responded? ==> (o.response.status == HttpOk <==> o.response.data.tickets != [])
    ensures IsTech(auth.authorities) ==> (o.Responded? <==> AllResolve(users, tickets))
    ensures IsTech(auth.authorities) && o.Responded? ==> |o.response.data.tickets| == |tickets|
    ensures !IsTech(auth.authorities) && !HasEmail(users, auth.name) ==> o == Raised(UserNotFound)
    ensures !IsTech(auth.authorities) && o.Responded? ==>
              forall i :: 0 <= i < |o.response.data.tickets| ==> o.response.data.tickets[i].correoSolicitante == auth.name
    ensures IsTech(auth.authorities) ==>
              (o.Raised? <==> GetAllTickets(users, tickets).Err?)
              && (o.Responded? ==> o.response.data.tickets == GetAllTickets(users, tickets).value)
    ensures !IsTech(auth.authorities) ==>
              (o.Raised? <==> GetTicketsByUser(users, tickets, auth.name).Err?)
              && (o.Responded? ==> o.response.data.tickets == GetTicketsByUser(users, tickets, auth.name).value)
  {
    var data := if IsTech(auth.authorities) then GetAllTickets(users, tickets)
                else GetTicketsByUser(users, tickets, auth.name);
    match data
    case Err(e) => Raised(e)
    case Ok(list) =>
      var status := if |list| == 0 then HttpBadRequest else HttpOk;
      Responded(Response("Tickets obtenidos correctamente", status, TicketList(list)))
  }

  /** A TECH whose tables resolve is listed every stored ticket. */
  lemma TechListsEveryTicket(auth: Authentication, users: map<int, User>, tickets: map<int, Ticket>)
    requires IsTech(auth.authorities)
    requires AllResolve(users, tickets)
    ensures ListTickets(auth, users, tickets).Responded?
    ensures forall k :: k in tickets ==> View(users, tickets[k]) in ListTickets(auth, users, tickets).response.data.tickets
  {
    AllListsEveryTicket(users, tickets);
  }

  /** Any other known caller is listed exactly the entries of the full
      listing whose requester email is its own name. */
  lemma UserListsOwnTickets(auth: Authentication, users: map<int, User>, tickets: map<int, Ticket>)
    requires !IsTech(auth.authorities)
    requires UsersKeyed(users) && UniqueEmails(users)
    requires HasEmail(users, auth.name)
    requires AllResolve(users, tickets)
    ensures ListTickets(auth, users, tickets).Responded?
    ensures ListTickets(auth, users, tickets).response.data.tickets
            == RequestedBy(GetAllTickets(users, tickets).value, auth.name)
  {
    ByUserIsRequestedByOfAll(users, tickets, auth.name);
  }

  /** A caller without ROLE_TECH whose email is stored, and each of whose
      tickets names a stored technician, is answered with exactly its own
      tickets, each once, under its own email as requester. */
  lemma UserListsExactlyOwnTickets(auth: Authentication, users: map<int, User>, tickets: map<int, Ticket>)
    requires !IsTech(auth.authorities)
    requires HasEmail(users, auth.name)
    requires OwnTechniciansStored(users, tickets, FindByCorreo(users, auth.name).value.id)
    ensures ListTickets(auth, users, tickets).Responded?
    ensures var u := FindByCorreo(users, auth.name).value;
            var vs := ListTickets(auth, users, tickets).response.data.tickets;
            && |vs| == |OwnIds(tickets, u.id)|
            && (forall v :: v in vs ==>
                  exists k :: k in tickets && tickets[k].usuarioId == u.id && tickets[k].tecnicoAsignadoId in users
                              && v == ToDTO(tickets[k], auth.name, users[tickets[k].tecnicoAsignadoId].correo))
            && (forall k :: k in tickets && tickets[k].usuarioId == u.id ==>
                  tickets[k].tecnicoAsignadoId in users
                  && ToDTO(tickets[k], auth.name, users[tickets[k].tecnicoAsignadoId].correo) in vs)
  {
    ByUserListsExactlyOwnTickets(users, tickets, auth.name);
  }

  /** GET /api/tickets/{id}: the service's exception propagates; a caller
      that is neither TECH nor the requester is answered FORBIDDEN with no
      data; everyone else gets the ticket. */
  function GetTicket(auth: Authentication, users: map<int, User>, tickets: map<int, Ticket>, id: int): (o: Outcome)
    ensures !o.AccessDenied?
    ensures id !in tickets ==> o == Raised(TicketNotFound)
    ensures o.Raised? <==> !(id in tickets && Resolves(users, tickets[id]))
    ensures o.Raised? ==> o == Raised(GetTicketById(users, tickets, id).error)
    ensures (o.Responded? && o.response.status == HttpForbidden)
            <==> (id in tickets && Resolves(users, tickets[id]) && !IsTech(auth.authorities)
                  && users[tickets[id].usuarioId].correo != auth.name)
    ensures o.Responded? && o.response.status == HttpForbidden ==> o.response == Response("Acceso denegado", HttpForbidden, NoData)
    ensures o.Responded? && o.response.status != HttpForbidden ==>
              o.response.message == "Ticket encontrado" && o.response.status == HttpOk
              && o.response.data == OneTicket(View(users, tickets[id]))
  {
    match GetTicketById(users, tickets, id)
    case Err(e) => Raised(e)
    case Ok(ticket) =>
      if !IsTech(auth.authorities) && ticket.correoSolicitante != auth.name then
        Responded(Response("Acceso denegado", HttpForbidden, NoData))
      else
        Responded(Response("Ticket encontrado", HttpOk, OneTicket(ticket)))
  }

  /** For a caller loaded from the user table, GET /api/tickets/{id} is
      refused exactly when the caller is not a technician and did not
      request the ticket. */
  lemma OnlyRequesterOrTechSeesTicket(users: map<int, User>, tickets: map<int, Ticket>, k: int, id: int)
    requires UniqueEmails(users)
    requires k in users
    requires id in tickets && Resolves(users, tickets[id])
    ensures var auth := AuthenticationOf(LoadUserByUsername(users, users[k].correo).value);
            var o := GetTicket(auth, users, tickets, id);
            o.Responded?
            && (o.response.status == HttpForbidden <==> users[k].nombreRol != TECH && tickets[id].usuarioId != k)
  {
    LoadedCallerRoles(users, k);
    var j := tickets[id].usuarioId;
    if users[j].correo == users[k].correo {
      assert j == k;
    }
  }

  // ---------------------------------------------------------------------
  // Writes

  /** POST /api/tickets, behind hasRole('USER'): the ticket is always
      created for the caller's own name, and success is answered CREATED. */
  function CreateTicketHandler(auth: Authentication, users: map<int, User>, tickets: map<int, Ticket>,
                               req: TicketCreateRequest, id: int): (out: (Outcome, map<int, Ticket>))
    requires id !in tickets
    ensures !HasRole(auth, USER) ==> out == (AccessDenied, tickets)
    ensures HasRole(auth, USER) ==> !out.0.AccessDenied?
    ensures HasRole(auth, USER) ==>
              out.1 == CreateTicketSpec(users, tickets, req.(correoUsuario := auth.name), id).1
    ensures HasRole(auth, USER) ==>
              var s := CreateTicketSpec(users, tickets, req.(correoUsuario := auth.name), id);
              && (out.0.Raised? <==> s.0.Err?)
              && (out.0.Raised? ==> out.0.error == s.0.error)
              && (out.0.Responded? ==> out.0.response.data == OneTicket(s.0.value))
    ensures out.0.Raised? ==> out.1 == tickets
    ensures out.0.Responded? ==>
              && out.0.response.message == "Ticket creado correctamente"
              && out.0.response.status == HttpCreated
              && out.0.response.data == OneTicket(TicketResponse(id, req.details, auth.name, req.correoSoporte))
              && id in out.1 && out.1[id].details == req.details
  {
    if !HasRole(auth, USER) then (AccessDenied, tickets)
    else
      var (r, after) := CreateTicketSpec(users, tickets, req.(correoUsuario := auth.name), id);
      match r
      case Err(e) => (Raised(e), after)
      case Ok(created) => (Responded(Response("Ticket creado correctamente", HttpCreated, OneTicket(created))), after)
  }

  /** Whatever requester email the body names, create behaves the same. */
  lemma CreateIgnoresRequestedEmail(auth: Authentication, users: map<int, User>, tickets: map<int, Ticket>,
                                    req: TicketCreateRequest, other: string, id: int)
    requires id !in tickets
    ensures CreateTicketHandler(auth, users, tickets, req, id)
            == CreateTicketHandler(auth, users, tickets, req.(correoUsuario := other), id)
  {
    assert req.(correoUsuario := auth.name) == req.(correoUsuario := other).(correoUsuario := auth.name);
  }

  /** PUT /api/tickets/{id}, behind hasRole('TECH'): the path id replaces
      the id in the body before the service sees the request. */
  function UpdateTicketHandler(auth: Authentication, users: map<int, User>, tickets: map<int, Ticket>,
                               id: int, req: TicketUpdateRequest): (out: (Outcome, map<int, Ticket>))
    requires TicketsKeyed(tickets)
    ensures !HasRole(auth, TECH) ==> out == (AccessDenied, tickets)
    ensures HasRole(auth, TECH) ==> !out.0.AccessDenied?
    ensures HasRole(auth, TECH) ==> out.1 == UpdateTicketSpec(users, tickets, req.(id := id)).1
    ensures HasRole(auth, TECH) ==>
              var s := UpdateTicketSpec(users, tickets, req.(id := id));
              && (out.0.Raised? <==> s.0.Err?)
              && (out.0.Raised? ==> out.0.error == s.0.error)
              && (out.0.Responded? ==> out.0.response.data == OneTicket(s.0.value))
    ensures id !in tickets && HasRole(auth, TECH) ==> out == (Raised(TicketNotFound), tickets)
    ensures out.0.Raised? ==> out.1 == tickets
    ensures out.0.Responded? ==>
              && out.0.response.message == "Ticket actualizado correctamente"
              && out.0.response.status == HttpOk
              && out.0.response.data.OneTicket? && out.0.response.data.ticket.id == id
              && out.1.Keys == tickets.Keys && out.1[id].details == req.details
  {
    if !HasRole(auth, TECH) then (AccessDenied, tickets)
    else
      var (r, after) := UpdateTicketSpec(users, tickets, req.(id := id));
      match r
      case Err(e) => (Raised(e), after)
      case Ok(updated) => (Responded(Response("Ticket actualizado correctamente", HttpOk, OneTicket(updated))), after)
  }

  /** DELETE /api/tickets/{id}, behind hasRole('TECH'). */
  function DeleteTicketHandler(auth: Authentication, tickets: map<int, Ticket>, id: int): (out: (Outcome, map<int, Ticket>))
    requires TicketsKeyed(tickets)
    ensures !HasRole(auth, TECH) ==> out == (AccessDenied, tickets)
    ensures HasRole(auth, TECH) ==> !out.0.AccessDenied? && out.1 == DeleteTicketSpec(tickets, id).1
    ensures HasRole(auth, TECH) ==> (out.0.Raised? <==> id !in tickets)
    ensures out.0.Raised? ==> out == (Raised(TicketNotFound), tickets)
    ensures out.0.Responded? ==>
              out.0.response == Response("Ticket eliminado correctamente", HttpOk, NoData)
              && out.1.Keys == tickets.Keys - {id}
    ensures forall k :: k in out.1 ==> k in tickets && out.1[k] == tickets[k]
  {
    if !HasRole(auth, TECH) then (AccessDenied, tickets)
    else
      var (r, after) := DeleteTicketSpec(tickets, id);
      match r
      case Err(e) => (Raised(e), after)
      case Ok(_) => (Responded(Response("Ticket eliminado correctamente", HttpOk, NoData)), after)
  }

  // ---------------------------------------------------------------------
  // Stored roles and the gates

  /** A caller loaded from the user table carries its email as its name,
      and holds TECH (by either test) or USER exactly when that is its
      stored role. */
  lemma LoadedCallerRoles(users: map<int, User>, k: int)
    requires UniqueEmails(users)
    requires k in users
    ensures LoadUserByUsername(users, users[k].correo).Ok?
    ensures var auth := AuthenticationOf(LoadUserByUsername(users, users[k].correo).value);
            && auth.name == users[k].correo
            && (IsTech(auth.authorities) <==> users[k].nombreRol == TECH)
            && (HasRole(auth, TECH) <==> users[k].nombreRol == TECH)
            && (HasRole(auth, USER) <==> users[k].nombreRol == USER)
  {
    LoadsStoredUser(users, k);
    var auth := AuthenticationOf(LoadUserByUsername(users, users[k].correo).value);
    assert auth.authorities == [Authority(users[k].nombreRol)];
    AuthorityInjective(users[k].nombreRol, TECH);
    AuthorityInjective(users[k].nombreRol, USER);
    IsTechIsHasRoleTech(auth);
  }

  /** A stored USER can create but never update or delete; a stored TECH
      can update and delete but never create. A refused write leaves the
      ticket table as it was. */
  lemma StoredRoleGatesWrites(users: map<int, User>, tickets: map<int, Ticket>, k: int,
                              c: TicketCreateRequest, id: int, u: TicketUpdateRequest, d: int)
    requires UniqueEmails(users) && TicketsKeyed(tickets)
    requires k in users
    requires id !in tickets
    ensures var auth := AuthenticationOf(LoadUserByUsername(users, users[k].correo).value);
            && (users[k].nombreRol == USER ==>
                  && !CreateTicketHandler(auth, users, tickets, c, id).0.AccessDenied?
                  && UpdateTicketHandler(auth, users, tickets, id, u) == (AccessDenied, tickets)
                  && DeleteTicketHandler(auth, tickets, d) == (AccessDenied, tickets))
            && (users[k].nombreRol == TECH ==>
                  && CreateTicketHandler(auth, users, tickets, c, id) == (AccessDenied, tickets)
                  && !UpdateTicketHandler(auth, users, tickets, id, u).0.AccessDenied?
                  && !DeleteTicketHandler(auth, tickets, d).0.AccessDenied?)
  {
    LoadedCallerRoles(users, k);
  }
}
