/** The ticket business rules of TicketServiceImpl.

    The three reads (getTicketById, getAllTickets, getTicketsByUser) are
    pure functions of the two tables. The three writes (createTicket,
    updateTicket, deleteTicket) are specified by pure functions that return
    the service's result together with the new ticket table, and are then
    implemented as methods of TicketService, which change
    ticketRepository.tickets in place; the user table is only read. */
module Tickets {
  import opened Domain
  import opened Keys
  import opened Repository

  // ---------------------------------------------------------------------
  // TicketMapper, which is not part of this model: the entity keeps the
  // request's descriptive fields and the resolved ids, and the response
  // carries the ticket with the two emails it is given.

  function ToEntityCreate(req: TicketCreateRequest, usuarioId: int, tecnicoId: int, id: int): Ticket {
    Ticket(id, usuarioId, tecnicoId, req.details)
  }

  function ToEntityUpdate(req: TicketUpdateRequest, tecnicoId: int, existing: Ticket): Ticket {
    Ticket(existing.id, existing.usuarioId, tecnicoId, req.details)
  }

  function ToDTO(t: Ticket, correoSolicitante: string, correoSoporte: string): TicketResponse {
    TicketResponse(t.id, t.details, correoSolicitante, correoSoporte)
  }

  // ---------------------------------------------------------------------
  // Reads

  /** Both users a ticket refers to are stored. */
  predicate Resolves(users: map<int, User>, t: Ticket) {
    t.usuarioId in users && t.tecnicoAsignadoId in users
  }

  /** No stored ticket refers to a missing user. */
  predicate AllResolve(users: map<int, User>, tickets: map<int, Ticket>) {
    forall k :: k in tickets ==> Resolves(users, tickets[k])
  }

  /** A ticket joined back to the stored emails of both its users. */
  function View(users: map<int, User>, t: Ticket): TicketResponse
    requires Resolves(users, t)
  {
    ToDTO(t, users[t.usuarioId].correo, users[t.tecnicoAsignadoId].correo)
  }

  /** getTicketById: fetch the ticket, then both users by id. */
  function GetTicketById(users: map<int, User>, tickets: map<int, Ticket>, id: int): (r: Result<TicketResponse>)
    ensures id !in tickets ==> r == Err(TicketNotFound)
    ensures id in tickets && !Resolves(users, tickets[id]) ==> r == Err(UserNotFound)
    ensures r.Ok? <==> id in tickets && Resolves(users, tickets[id])
    ensures r.Ok? ==> r.value.id == tickets[id].id && r.value.details == tickets[id].details
    ensures r.Ok? ==> r.value.correoSolicitante == users[tickets[id].usuarioId].correo
    ensures r.Ok? ==> r.value.correoSoporte == users[tickets[id].tecnicoAsignadoId].correo
  {
    if id !in tickets then Err(TicketNotFound)
    else
      var existing := tickets[id];
      if existing.usuarioId !in users then Err(UserNotFound)
      else if existing.tecnicoAsignadoId !in users then Err(UserNotFound)
      else Ok(View(users, existing))
  }

  /** The stream map of getAllTickets: join every ticket of ts, failing on
      the first one that refers to a missing user. */
  function JoinAll(users: map<int, User>, ts: seq<Ticket>): (r: Result<seq<TicketResponse>>)
    ensures r.Ok? <==> forall i :: 0 <= i < |ts| ==> Resolves(users, ts[i])
    ensures r.Err? ==> r.error == UserNotFound
    ensures r.Ok? ==> |r.value| == |ts|
    ensures r.Ok? ==> forall i :: 0 <= i < |ts| ==> r.value[i] == View(users, ts[i])
  {
    if ts == [] then Ok([])
    else if !Resolves(users, ts[0]) then Err(UserNotFound)
    else
      match JoinAll(users, ts[1..])
      case Err(e) => Err(e)
      case Ok(rest) => Ok([View(users, ts[0])] + rest)
  }

  /** getAllTickets: every stored ticket, joined with both users' emails. */
  function GetAllTickets(users: map<int, User>, tickets: map<int, Ticket>): (r: Result<seq<TicketResponse>>)
    ensures r.Ok? <==> AllResolve(users, tickets)
    ensures r.Err? ==> r.error == UserNotFound
    ensures r.Ok? ==> |r.value| == |tickets|
  {
    var all := FindAll(tickets);
    ListedResolveIffAllResolve(users, tickets);
    JoinAll(users, all)
  }

  lemma ListedResolveIffAllResolve(users: map<int, User>, tickets: map<int, Ticket>)
    ensures var all := FindAll(tickets);
            (forall i :: 0 <= i < |all| ==> Resolves(users, all[i])) <==> AllResolve(users, tickets)
  {
    var all := FindAll(tickets);
    if AllResolve(users, tickets) {
      forall i | 0 <= i < |all| ensures Resolves(users, all[i]) {
        assert Ascending(tickets.Keys)[i] in tickets;
      }
    }
    if forall i :: 0 <= i < |all| ==> Resolves(users, all[i]) {
      forall k | k in tickets ensures Resolves(users, tickets[k]) {
        FindAllListsEvery(tickets, k);
      }
    }
  }

  /** The stream map of getTicketsByUser: join the tickets of one requester,
      whose email is taken from the user already found. */
  function JoinOwn(users: map<int, User>, solicitante: User, ts: seq<Ticket>): (r: Result<seq<TicketResponse>>)
    ensures r.Ok? <==> forall i :: 0 <= i < |ts| ==> ts[i].tecnicoAsignadoId in users
    ensures r.Err? ==> r.error == UserNotFound
    ensures r.Ok? ==> |r.value| == |ts|
    ensures r.Ok? ==> forall i :: 0 <= i < |ts| ==>
              r.value[i] == ToDTO(ts[i], solicitante.correo, users[ts[i].tecnicoAsignadoId].correo)
  {
    if ts == [] then Ok([])
    else if ts[0].tecnicoAsignadoId !in users then Err(UserNotFound)
    else
      match JoinOwn(users, solicitante, ts[1..])
      case Err(e) => Err(e)
      case Ok(rest) => Ok([ToDTO(ts[0], solicitante.correo, users[ts[0].tecnicoAsignadoId].correo)] + rest)
  }

  /** getTicketsByUser: find the user by email, then list the tickets whose
      usuarioId is that user's id. */
  function GetTicketsByUser(users: map<int, User>, tickets: map<int, Ticket>, correo: string): (r: Result<seq<TicketResponse>>)
    ensures !HasEmail(users, correo) ==> r == Err(UserNotFound)
    ensures r.Ok? <==> HasEmail(users, correo)
                       && OwnTechniciansStored(users, tickets, FindByCorreo(users, correo).value.id)
    ensures r.Err? ==> r.error == UserNotFound
    ensures r.Ok? ==> |r.value| == |OwnIds(tickets, FindByCorreo(users, correo).value.id)|
    ensures r.Ok? ==> forall i :: 0 <= i < |r.value| ==> r.value[i].correoSolicitante == correo
  {
    match FindByCorreo(users, correo)
    case None => Err(UserNotFound)
    case Some(usuario) =>
      OwnJoinSucceeds(users, tickets, usuario.id);
      JoinOwn(users, usuario, FindByUsuarioId(tickets, usuario.id))
  }

  /** Every stored ticket of requester uid names a stored technician. */
  predicate OwnTechniciansStored(users: map<int, User>, tickets: map<int, Ticket>, uid: int) {
    forall k :: k in tickets && tickets[k].usuarioId == uid ==> tickets[k].tecnicoAsignadoId in users
  }

  /** The join of findByUsuarioId succeeds exactly when every ticket of the
      requester names a stored technician. */
  lemma OwnJoinSucceeds(users: map<int, User>, tickets: map<int, Ticket>, uid: int)
    ensures var own := FindByUsuarioId(tickets, uid);
            (forall i :: 0 <= i < |own| ==> own[i].tecnicoAsignadoId in users)
            <==> OwnTechniciansStored(users, tickets, uid)
  {
    var own := FindByUsuarioId(tickets, uid);
    if forall i :: 0 <= i < |own| ==> own[i].tecnicoAsignadoId in users {
      forall k | k in tickets && tickets[k].usuarioId == uid ensures tickets[k].tecnicoAsignadoId in users {
        assert tickets[k] in own;
        var i :| 0 <= i < |own| && own[i] == tickets[k];
      }
    }
    if OwnTechniciansStored(users, tickets, uid) {
      forall i | 0 <= i < |own| ensures own[i].tecnicoAsignadoId in users {
        assert own[i] in own;
        var k :| k in tickets && tickets[k] == own[i];
      }
    }
  }

  /** The responses of vs whose requester email is correo, in order. */
  function RequestedBy(vs: seq<TicketResponse>, correo: string): (r: seq<TicketResponse>)
    ensures forall v :: v in r <==> v in vs && v.correoSolicitante == correo
  {
    if vs == [] then []
    else if vs[0].correoSolicitante == correo then [vs[0]] + RequestedBy(vs[1..], correo)
    else RequestedBy(vs[1..], correo)
  }

  // ---------------------------------------------------------------------
  // Writes, as functions of the tables

  /** createTicket with the identifier the store hands out: resolve the
      requester and the technician by email, reject a technician whose role
      is not TECH, and only then insert. */
  function CreateTicketSpec(users: map<int, User>, tickets: map<int, Ticket>, req: TicketCreateRequest, id: int)
    : (out: (Result<TicketResponse>, map<int, Ticket>))
    requires id !in tickets
    ensures !HasEmail(users, req.correoUsuario) ==> out == (Err(UserNotFound), tickets)
    ensures HasEmail(users, req.correoUsuario) && !HasEmail(users, req.correoSoporte) ==> out == (Err(UserNotFound), tickets)
    ensures (HasEmail(users, req.correoUsuario) && HasEmail(users, req.correoSoporte)
             && FindByCorreo(users, req.correoSoporte).value.nombreRol != TECH) ==> out == (Err(BadTicketRequest), tickets)
    ensures out.0.Ok? <==> HasEmail(users, req.correoUsuario) && HasEmail(users, req.correoSoporte)
                           && FindByCorreo(users, req.correoSoporte).value.nombreRol == TECH
    ensures out.0.Ok? ==>
              var solicitante := FindByCorreo(users, req.correoUsuario).value;
              var soporte := FindByCorreo(users, req.correoSoporte).value;
              && out.1 == tickets[id := Ticket(id, solicitante.id, soporte.id, req.details)]
              && |out.1| == |tickets| + 1
              && out.0.value == TicketResponse(id, req.details, req.correoUsuario, req.correoSoporte)
  {
    match FindByCorreo(users, req.correoUsuario)
    case None => (Err(UserNotFound), tickets)
    case Some(solicitante) =>
      match FindByCorreo(users, req.correoSoporte)
      case None => (Err(UserNotFound), tickets)
      case Some(soporte) =>
        if soporte.nombreRol != TECH then (Err(BadTicketRequest), tickets)
        else
          var saved := ToEntityCreate(req, solicitante.id, soporte.id, id);
          (Ok(ToDTO(saved, solicitante.correo, soporte.correo)), tickets[id := saved])
  }

  /** The guards of updateTicket that come before the technician check. */
  predicate UpdateTargetFound(users: map<int, User>, tickets: map<int, Ticket>, req: TicketUpdateRequest) {
    req.id in tickets && tickets[req.id].usuarioId in users
  }

  /** updateTicket: fetch the ticket, re-resolve its requester by id,
      resolve the new technician by email, re-check the technician's role,
      and only then overwrite the ticket. */
  function UpdateTicketSpec(users: map<int, User>, tickets: map<int, Ticket>, req: TicketUpdateRequest)
    : (out: (Result<TicketResponse>, map<int, Ticket>))
    requires TicketsKeyed(tickets)
    ensures req.id !in tickets ==> out == (Err(TicketNotFound), tickets)
    ensures req.id in tickets && tickets[req.id].usuarioId !in users ==> out == (Err(UserNotFound), tickets)
    ensures UpdateTargetFound(users, tickets, req) && !HasEmail(users, req.correoSoporte) ==> out == (Err(UserNotFound), tickets)
    ensures (UpdateTargetFound(users, tickets, req) && HasEmail(users, req.correoSoporte)
             && FindByCorreo(users, req.correoSoporte).value.nombreRol != TECH) ==> out == (Err(BadTicketRequest), tickets)
    ensures out.0.Ok? <==> UpdateTargetFound(users, tickets, req) && HasEmail(users, req.correoSoporte)
                           && FindByCorreo(users, req.correoSoporte).value.nombreRol == TECH
    ensures out.0.Ok? ==>
              var existing := tickets[req.id];
              var soporte := FindByCorreo(users, req.correoSoporte).value;
              && out.1 == tickets[req.id := Ticket(req.id, existing.usuarioId, soporte.id, req.details)]
              && out.1.Keys == tickets.Keys
              && out.0.value == TicketResponse(req.id, req.details, users[existing.usuarioId].correo, req.correoSoporte)
  {
    if req.id !in tickets then (Err(TicketNotFound), tickets)
    else
      var existing := tickets[req.id];
      if existing.usuarioId !in users then (Err(UserNotFound), tickets)
      else
        var solicitante := users[existing.usuarioId];
        match FindByCorreo(users, req.correoSoporte)
        case None => (Err(UserNotFound), tickets)
        case Some(soporte) =>
          if soporte.nombreRol != TECH then (Err(BadTicketRequest), tickets)
          else
            var saved := ToEntityUpdate(req, soporte.id, existing);
            (Ok(ToDTO(saved, solicitante.correo, soporte.correo)), tickets[saved.id := saved])
  }

  /** deleteTicket: fetch the ticket, then delete that entity. */
  function DeleteTicketSpec(tickets: map<int, Ticket>, id: int): (out: (Result<()>, map<int, Ticket>))
    requires TicketsKeyed(tickets)
    ensures out.0.Ok? <==> id in tickets
    ensures out.0.Err? ==> out.0.error == TicketNotFound && out.1 == tickets
    ensures out.0.Ok? ==> out.1.Keys == tickets.Keys - {id} && |out.1| == |tickets| - 1
    ensures forall k :: k in out.1 ==> k in tickets && out.1[k] == tickets[k]
  {
    if id !in tickets then (Err(TicketNotFound), tickets)
    else
      var existing := tickets[id];
      (Ok(()), tickets - {existing.id})
  }

  // ---------------------------------------------------------------------
  // Properties relating the writes to the reads

  /** A created ticket reads back, by its new id, as the response create gave;
      its requester holds the request's email and its technician is a TECH. */
  lemma CreateThenGet(users: map<int, User>, tickets: map<int, Ticket>, req: TicketCreateRequest, id: int)
    requires UsersKeyed(users)
    requires id !in tickets
    requires CreateTicketSpec(users, tickets, req, id).0.Ok?
    ensures var out := CreateTicketSpec(users, tickets, req, id);
            && GetTicketById(users, out.1, id) == out.0
            && users[out.1[id].usuarioId].correo == req.correoUsuario
            && users[out.1[id].tecnicoAsignadoId].nombreRol == TECH
  {
    FoundUserIsStoredUnderId(users, req.correoUsuario);
    FoundUserIsStoredUnderId(users, req.correoSoporte);
  }

  /** An updated ticket reads back as the response update gave; it keeps its
      requester and now names the new technician, who is a TECH. */
  lemma UpdateThenGet(users: map<int, User>, tickets: map<int, Ticket>, req: TicketUpdateRequest)
    requires UsersKeyed(users) && TicketsKeyed(tickets)
    requires UpdateTicketSpec(users, tickets, req).0.Ok?
    ensures var out := UpdateTicketSpec(users, tickets, req);
            && GetTicketById(users, out.1, req.id) == out.0
            && out.1[req.id].usuarioId == tickets[req.id].usuarioId
            && users[out.1[req.id].tecnicoAsignadoId].correo == req.correoSoporte
            && users[out.1[req.id].tecnicoAsignadoId].nombreRol == TECH
  {
    FoundUserIsStoredUnderId(users, req.correoSoporte);
  }

  /** After a delete, the id is not found, whether or not the delete succeeded. */
  lemma DeleteThenGet(users: map<int, User>, tickets: map<int, Ticket>, id: int)
    requires TicketsKeyed(tickets)
    ensures GetTicketById(users, DeleteTicketSpec(tickets, id).1, id) == Err(TicketNotFound)
  {
  }

  /** Every ticket of a successful full listing also reads back on its own,
      as the same response. */
  lemma GetByIdAgreesWithAll(users: map<int, User>, tickets: map<int, Ticket>, id: int)
    requires GetAllTickets(users, tickets).Ok?
    requires id in tickets
    ensures GetTicketById(users, tickets, id).Ok?
    ensures GetTicketById(users, tickets, id).value in GetAllTickets(users, tickets).value
  {
    var all := FindAll(tickets);
    FindAllListsEvery(tickets, id);
    var i :| 0 <= i < |all| && all[i] == tickets[id];
    assert GetAllTickets(users, tickets).value[i] == View(users, tickets[id]);
  }

  /** The full listing holds a response for every stored ticket, and only those. */
  lemma AllListsEveryTicket(users: map<int, User>, tickets: map<int, Ticket>)
    requires GetAllTickets(users, tickets).Ok?
    ensures forall k :: k in tickets ==> View(users, tickets[k]) in GetAllTickets(users, tickets).value
    ensures forall v :: v in GetAllTickets(users, tickets).value ==>
              exists t :: t in tickets.Values && Resolves(users, t) && v == View(users, t)
  {
    var all := FindAll(tickets);
    var vs := GetAllTickets(users, tickets).value;
    forall k | k in tickets ensures View(users, tickets[k]) in vs {
      FindAllListsEvery(tickets, k);
      var i :| 0 <= i < |all| && all[i] == tickets[k];
      assert vs[i] == View(users, tickets[k]);
    }
    forall v | v in vs ensures exists t :: t in tickets.Values && Resolves(users, t) && v == View(users, t) {
      var i :| 0 <= i < |vs| && vs[i] == v;
      var k := Ascending(tickets.Keys)[i];
      assert tickets[k] in tickets.Values && all[i] == tickets[k];
    }
  }

  lemma {:induction false} JoinOwnIsRequestedByOfJoinAll(users: map<int, User>, u: User, ts: seq<Ticket>)
    requires UniqueEmails(users)
    requires u.id in users && users[u.id] == u
    requires JoinAll(users, ts).Ok?
    ensures JoinOwn(users, u, OwnedBy(ts, u.id)) == Ok(RequestedBy(JoinAll(users, ts).value, u.correo))
  {
    if ts != [] {
      var t := ts[0];
      var vs := JoinAll(users, ts).value;
      var rest := JoinAll(users, ts[1..]).value;
      assert vs == [View(users, t)] + rest;
      assert vs[1..] == rest;
      JoinOwnIsRequestedByOfJoinAll(users, u, ts[1..]);
      if t.usuarioId == u.id {
        assert OwnedBy(ts, u.id) == [t] + OwnedBy(ts[1..], u.id);
        assert ([t] + OwnedBy(ts[1..], u.id))[1..] == OwnedBy(ts[1..], u.id);
      } else {
        assert users[t.usuarioId].correo != u.correo;
      }
    }
  }

  /** A requester's own listing is exactly the part of the full listing whose
      requester email is theirs, in the same order (when emails are unique and
      the full listing succeeds). */
  lemma ByUserIsRequestedByOfAll(users: map<int, User>, tickets: map<int, Ticket>, correo: string)
    requires UsersKeyed(users) && UniqueEmails(users)
    requires HasEmail(users, correo)
    requires GetAllTickets(users, tickets).Ok?
    ensures GetTicketsByUser(users, tickets, correo) == Ok(RequestedBy(GetAllTickets(users, tickets).value, correo))
  {
    FoundUserIsStoredUnderId(users, correo);
    var u := FindByCorreo(users, correo).value;
    JoinOwnIsRequestedByOfJoinAll(users, u, FindAll(tickets));
  }

  /** Whenever the by-user listing succeeds for the user u found by the
      email, it holds, joined with the email and the technician's stored
      email, every stored ticket whose requester id is u's, and nothing else.
      Neither unique emails nor resolving tickets of other users is needed. */
  lemma ByUserListsExactlyOwnTickets(users: map<int, User>, tickets: map<int, Ticket>, correo: string)
    requires GetTicketsByUser(users, tickets, correo).Ok?
    ensures FindByCorreo(users, correo).Some?
    ensures var u := FindByCorreo(users, correo).value;
            var vs := GetTicketsByUser(users, tickets, correo).value;
            && (forall v :: v in vs ==>
                  exists k :: k in tickets && tickets[k].usuarioId == u.id && tickets[k].tecnicoAsignadoId in users
                              && v == ToDTO(tickets[k], correo, users[tickets[k].tecnicoAsignadoId].correo))
            && (forall k :: k in tickets && tickets[k].usuarioId == u.id ==>
                  tickets[k].tecnicoAsignadoId in users
                  && ToDTO(tickets[k], correo, users[tickets[k].tecnicoAsignadoId].correo) in vs)
  {
    var u := FindByCorreo(users, correo).value;
    var own := FindByUsuarioId(tickets, u.id);
    var vs := GetTicketsByUser(users, tickets, correo).value;
    assert JoinOwn(users, u, own) == Ok(vs);
    forall v | v in vs
      ensures exists k :: k in tickets && tickets[k].usuarioId == u.id && tickets[k].tecnicoAsignadoId in users
                          && v == ToDTO(tickets[k], correo, users[tickets[k].tecnicoAsignadoId].correo)
    {
      var i :| 0 <= i < |vs| && vs[i] == v;
      assert own[i] in own;
      var k :| k in tickets && tickets[k] == own[i];
      assert v == ToDTO(tickets[k], correo, users[tickets[k].tecnicoAsignadoId].correo);
    }
    forall k | k in tickets && tickets[k].usuarioId == u.id
      ensures tickets[k].tecnicoAsignadoId in users
              && ToDTO(tickets[k], correo, users[tickets[k].tecnicoAsignadoId].correo) in vs
    {
      assert tickets[k] in own;
      var i :| 0 <= i < |own| && own[i] == tickets[k];
      assert vs[i] == ToDTO(tickets[k], correo, users[tickets[k].tecnicoAsignadoId].correo);
    }
  }

  /** The tickets whose technician is a stored TECH user: the invariant that
      the create and update checks establish. */
  predicate TechniciansAssigned(users: map<int, User>, tickets: map<int, Ticket>) {
    forall k :: k in tickets ==>
      Resolves(users, tickets[k]) && users[tickets[k].tecnicoAsignadoId].nombreRol == TECH
  }

  /** Create, update and delete keep every ticket joined to a stored
      requester and a stored TECH technician. */
  lemma WritesKeepTechniciansAssigned(users: map<int, User>, tickets: map<int, Ticket>,
                                      c: TicketCreateRequest, id: int, u: TicketUpdateRequest, d: int)
    requires UsersKeyed(users) && TicketsKeyed(tickets)
    requires TechniciansAssigned(users, tickets)
    requires id !in tickets
    ensures TechniciansAssigned(users, CreateTicketSpec(users, tickets, c, id).1)
    ensures TechniciansAssigned(users, UpdateTicketSpec(users, tickets, u).1)
    ensures TechniciansAssigned(users, DeleteTicketSpec(tickets, d).1)
  {
    if CreateTicketSpec(users, tickets, c, id).0.Ok? {
      CreateThenGet(users, tickets, c, id);
    }
    if UpdateTicketSpec(users, tickets, u).0.Ok? {
      UpdateThenGet(users, tickets, u);
    }
  }

  // ---------------------------------------------------------------------
  // The service, over the shared tables

  class TicketService {
    const ticketRepository: TicketRepository
    const userRepository: UserRepository

    ghost predicate Valid()
      reads ticketRepository, userRepository
    {
      ticketRepository.Valid() && userRepository.Valid()
    }

    constructor (ticketRepository: TicketRepository, userRepository: UserRepository)
      ensures this.ticketRepository == ticketRepository && this.userRepository == userRepository
    {
      this.ticketRepository := ticketRepository;
      this.userRepository := userRepository;
    }

    /** createTicket: the table becomes what CreateTicketSpec says for some
        identifier not yet in use. */
    method CreateTicket(req: TicketCreateRequest) returns (r: Result<TicketResponse>)
      requires Valid()
      modifies ticketRepository
      ensures Valid()
      ensures exists id :: id !in old(ticketRepository.tickets)
                && (r, ticketRepository.tickets) == CreateTicketSpec(userRepository.users, old(ticketRepository.tickets), req, id)
    {
      var id := NextKey(ticketRepository.tickets.Keys);
      ghost var spec := CreateTicketSpec(userRepository.users, ticketRepository.tickets, req, id);
      var usuarioSolicitante := FindByCorreo(userRepository.users, req.correoUsuario);
      if usuarioSolicitante.None? {
        r := Err(UserNotFound);
        assert (r, ticketRepository.tickets) == spec;
        return;
      }
      var usuarioSoporte := FindByCorreo(userRepository.users, req.correoSoporte);
      if usuarioSoporte.None? {
        r := Err(UserNotFound);
        assert (r, ticketRepository.tickets) == spec;
        return;
      }
      if usuarioSoporte.value.nombreRol != TECH {
        r := Err(BadTicketRequest);
        assert (r, ticketRepository.tickets) == spec;
        return;
      }
      var saved := ToEntityCreate(req, usuarioSolicitante.value.id, usuarioSoporte.value.id, id);
      ticketRepository.tickets := ticketRepository.tickets[id := saved];
      r := Ok(ToDTO(saved, usuarioSolicitante.value.correo, usuarioSoporte.value.correo));
      assert (r, ticketRepository.tickets) == spec;
    }

    /** createTicketForUser: createTicket with the requester email replaced
        by the given one, whatever the request held. */
    method CreateTicketForUser(req: TicketCreateRequest, correoUsuario: string) returns (r: Result<TicketResponse>)
      requires Valid()
      modifies ticketRepository
      ensures Valid()
      ensures exists id :: id !in old(ticketRepository.tickets)
                && (r, ticketRepository.tickets)
                   == CreateTicketSpec(userRepository.users, old(ticketRepository.tickets), req.(correoUsuario := correoUsuario), id)
    {
      var ticket := req.(correoUsuario := correoUsuario);
      r := CreateTicket(ticket);
    }

    /** updateTicket: the table becomes what UpdateTicketSpec says. */
    method UpdateTicket(req: TicketUpdateRequest) returns (r: Result<TicketResponse>)
      requires Valid()
      modifies ticketRepository
      ensures Valid()
      ensures (r, ticketRepository.tickets) == UpdateTicketSpec(userRepository.users, old(ticketRepository.tickets), req)
    {
      ghost var spec := UpdateTicketSpec(userRepository.users, ticketRepository.tickets, req);
      if req.id !in ticketRepository.tickets {
        return Err(TicketNotFound);
      }
      var existing := ticketRepository.tickets[req.id];
      if existing.usuarioId !in userRepository.users {
        return Err(UserNotFound);
      }
      var usuarioSolicitante := userRepository.users[existing.usuarioId];
      var usuarioSoporte := FindByCorreo(userRepository.users, req.correoSoporte);
      if usuarioSoporte.None? {
        return Err(UserNotFound);
      }
      if usuarioSoporte.value.nombreRol != TECH {
        return Err(BadTicketRequest);
      }
      var saved := ToEntityUpdate(req, usuarioSoporte.value.id, existing);
      ticketRepository.tickets := ticketRepository.tickets[saved.id := saved];
      r := Ok(ToDTO(saved, usuarioSolicitante.correo, usuarioSoporte.value.correo));
      assert (r, ticketRepository.tickets) == spec;
    }

    /** deleteTicket: the table becomes what DeleteTicketSpec says. */
    method DeleteTicket(id: int) returns (r: Result<()>)
      requires Valid()
      modifies ticketRepository
      ensures Valid()
      ensures (r, ticketRepository.tickets) == DeleteTicketSpec(old(ticketRepository.tickets), id)
    {
      if id !in ticketRepository.tickets {
        return Err(TicketNotFound);
      }
      var existing := ticketRepository.tickets[id];
      ticketRepository.tickets := ticketRepository.tickets - {existing.id};
      r := Ok(());
    }
  }
}
