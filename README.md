# Ticketing backend: services, login bridge and ticket controller

This project models the ticket and user business rules of a Spring help-desk backend and proves properties about them. Users hold a role of USER (a requester) or TECH (a support technician). Tickets record the id of their requester and of their assigned technician.

The model covers four pieces of the backend:

- **TicketServiceImpl.** It covers create, create-for-user, update, delete, get-by-id, get-all and get-by-user.
  - The reads are pure functions of the user table and the ticket table.
  - Each write is specified by a function that returns the service's result together with the new ticket table.
  - Each write is then implemented by a method of `Tickets.TicketService` that changes `ticketRepository.tickets` in place. The method is proved equal to its specification.
- **UserServiceImpl.** It covers save, update, delete, findByCorreo and findAll, in the same style. `Users.UserService` changes `userRepository.users`.
- **UserDetailsServiceImpl.loadUserByUsername.** The stored user becomes a principal holding exactly one authority, `"ROLE_" + role`.
- **TicketController.** It covers:
  - the `ROLE_TECH` test;
  - the choice between the full list and the caller's own list;
  - BAD_REQUEST for an empty list;
  - FORBIDDEN on a ticket that is neither the caller's nor viewed by a TECH;
  - the caller's name forced as requester on create;
  - the path id forced on update;
  - the `@PreAuthorize` role gates.

  The controller keeps no state, so each handler is a function. A write handler uses the service's specification function for its effect on the ticket table.

Exceptions become values: `Result` is `Ok(value)` or `Err(error)`, and the `Error` kinds are the service's exception classes. A controller request ends `Responded(message, status, data)`, `Raised(error)` (the exception propagates) or `AccessDenied` (a role gate refused it).

Modules:

- `Domain`: records, requests, responses, errors.
- `Keys`: greatest key, fresh key, ascending key listing.
- `Repository`: the two tables as classes holding maps, plus the repository queries.
- `Tickets`, `Users`, `UserDetailsService`, `Controller`.

Two points where the wording around the code is narrower than the code:

- **Ownership check.** The comments at TicketController.java:27-29 and :46-50 say a USER sees only their own tickets. The check at :65 refuses every caller without `ROLE_TECH` that did not request the ticket, whatever its role. `Controller.GetTicket` models the check.
- **Email uniqueness.** Only save rejects an email already in use (UserServiceImpl.java:35-37). `Users.UpdateCanDuplicateEmail` shows that update does not check it.

## Model

| member | source | states |
|---|---|---|
| Repository.FindByCorreo | src/main/java/com/uca/parcialfinalncapas/service/impl/UserServiceImpl.java:27-28 | the email lookup is empty exactly when no stored user has the email; otherwise it returns a stored user holding that email |
| Repository.FindByCorreoFindsOwner | src/main/java/com/uca/parcialfinalncapas/service/impl/UserServiceImpl.java:25-29 | with unique emails, looking up a stored user's email returns exactly that user |
| Repository.FindAll | src/main/java/com/uca/parcialfinalncapas/service/impl/TicketServiceImpl.java:125 | findAll lists one entry per stored ticket, position i holding the ticket under the i-th smallest id |
| Repository.FindAllListsEvery | src/main/java/com/uca/parcialfinalncapas/service/impl/TicketServiceImpl.java:125 | every stored ticket occurs in findAll |
| Repository.FindByUsuarioId | src/main/java/com/uca/parcialfinalncapas/repository/TicketRepository.java:10-13 | findByUsuarioId lists only stored tickets whose usuarioId is the given id, and every such ticket; no ticket twice, since its length is the number of such stored tickets |
| Tickets.GetTicketById | src/main/java/com/uca/parcialfinalncapas/service/impl/TicketServiceImpl.java:104-121 | an absent id is TicketNotFound; a requester or technician missing from the user table is UserNotFound; otherwise the response carries the ticket's id and fields and both users' stored emails |
| Tickets.JoinAll | src/main/java/com/uca/parcialfinalncapas/service/impl/TicketServiceImpl.java:125-137 | the join succeeds exactly when every ticket's two users are stored, fails only with UserNotFound, and position i is ticket i joined with its users' emails |
| Tickets.GetAllTickets | src/main/java/com/uca/parcialfinalncapas/service/impl/TicketServiceImpl.java:123-138 | succeeds exactly when no stored ticket refers to a missing user, fails only with UserNotFound, and returns one response per stored ticket |
| Tickets.JoinOwn | src/main/java/com/uca/parcialfinalncapas/service/impl/TicketServiceImpl.java:149-161 | succeeds exactly when every listed ticket's technician is stored; position i carries the found user's email as requester and the technician's stored email |
| Tickets.GetTicketsByUser | src/main/java/com/uca/parcialfinalncapas/service/impl/TicketServiceImpl.java:140-162 | an unknown email is UserNotFound and UserNotFound is the only error; the call succeeds exactly when the email is stored and every ticket of the user found by it names a stored technician; on success the list has one entry per such ticket and every entry has that email as requester |
| Tickets.CreateTicketSpec | src/main/java/com/uca/parcialfinalncapas/service/impl/TicketServiceImpl.java:30-58 | unknown requester or technician email is UserNotFound and a non-TECH technician is BadTicketRequest, each with the table unchanged; success exactly when all three checks pass, and then exactly one ticket is added under the fresh id with the resolved ids, and the response carries both emails |
| Tickets.UpdateTicketSpec | src/main/java/com/uca/parcialfinalncapas/service/impl/TicketServiceImpl.java:67-94 | unknown id is TicketNotFound, missing stored requester is UserNotFound, unknown technician is UserNotFound, non-TECH technician is BadTicketRequest, each with the table unchanged; on success only that id's ticket changes, keeping its requester and taking the new technician's id, and the response keeps the original requester's email |
| Tickets.DeleteTicketSpec | src/main/java/com/uca/parcialfinalncapas/service/impl/TicketServiceImpl.java:96-102 | succeeds exactly when the id is stored; an absent id is TicketNotFound with the table unchanged; a present id removes exactly that key and leaves every other ticket as it was |
| Tickets.CreateThenGet | src/main/java/com/uca/parcialfinalncapas/service/impl/TicketServiceImpl.java:45-57 | a created ticket reads back by its id as the response create returned; its requester holds the request's email and its technician is a TECH |
| Tickets.UpdateThenGet | src/main/java/com/uca/parcialfinalncapas/service/impl/TicketServiceImpl.java:85-93 | an updated ticket reads back as the response update returned, with the same requester and the new TECH technician |
| Tickets.DeleteThenGet | src/main/java/com/uca/parcialfinalncapas/service/impl/TicketServiceImpl.java:97-101 | after delete, get-by-id of that id is TicketNotFound |
| Tickets.GetByIdAgreesWithAll | src/main/java/com/uca/parcialfinalncapas/service/impl/TicketServiceImpl.java:104-138 | when the full listing succeeds, every stored ticket also reads back by id, as a response that appears in the listing |
| Tickets.AllListsEveryTicket | src/main/java/com/uca/parcialfinalncapas/service/impl/TicketServiceImpl.java:123-138 | the full listing holds the joined response of every stored ticket, and nothing else |
| Tickets.JoinOwnIsRequestedByOfJoinAll | src/main/java/com/uca/parcialfinalncapas/service/impl/TicketServiceImpl.java:149-161 | joining a user's own tickets gives exactly the entries of the full join whose requester email is that user's, in the same order |
| Tickets.ByUserListsExactlyOwnTickets | src/main/java/com/uca/parcialfinalncapas/service/impl/TicketServiceImpl.java:140-162 | whenever the by-user listing succeeds, its entries are exactly the stored tickets whose requester id is the found user's, each joined with the given email and its technician's stored email; neither unique emails nor the other users' tickets resolving is needed |
| Tickets.ByUserIsRequestedByOfAll | src/main/java/com/uca/parcialfinalncapas/service/impl/TicketServiceImpl.java:140-162 | with unique emails, the by-user listing equals the part of the full listing whose requester email is the given one |
| Tickets.WritesKeepTechniciansAssigned | src/main/java/com/uca/parcialfinalncapas/service/impl/TicketServiceImpl.java:41-43 | create, update and delete keep every ticket pointing at a stored requester and a stored TECH technician |
| Tickets.TicketService.CreateTicket | src/main/java/com/uca/parcialfinalncapas/service/impl/TicketServiceImpl.java:30-58 | the result and the new ticket table are those of CreateTicketSpec for some id not yet in use; the user table is not modified |
| Tickets.TicketService.CreateTicketForUser | src/main/java/com/uca/parcialfinalncapas/service/impl/TicketServiceImpl.java:60-65 | behaves as CreateTicket on the request with its requester email replaced by the given one |
| Tickets.TicketService.UpdateTicket | src/main/java/com/uca/parcialfinalncapas/service/impl/TicketServiceImpl.java:67-94 | the result and the new ticket table are those of UpdateTicketSpec |
| Tickets.TicketService.DeleteTicket | src/main/java/com/uca/parcialfinalncapas/service/impl/TicketServiceImpl.java:96-102 | the result and the new ticket table are those of DeleteTicketSpec |
| Users.SaveSpec | src/main/java/com/uca/parcialfinalncapas/service/impl/UserServiceImpl.java:32-45 | an email already stored is rejected with the table unchanged; otherwise exactly one user is added under the fresh id, with the request's fields and the encoder's output as password; unique emails are preserved |
| Users.UpdateSpec | src/main/java/com/uca/parcialfinalncapas/service/impl/UserServiceImpl.java:47-57 | an id not stored is UserNotFound with the table unchanged; otherwise only that id's row changes, to exactly the request's id, name, email, password (stored as given, not re-encoded) and role |
| Users.DeleteSpec | src/main/java/com/uca/parcialfinalncapas/service/impl/UserServiceImpl.java:59-65 | succeeds exactly when the id is stored; an absent id is UserNotFound with the table unchanged; a present id removes exactly that key |
| Users.SaveThenFind | src/main/java/com/uca/parcialfinalncapas/service/impl/UserServiceImpl.java:35-44 | with unique emails, a saved user is found again by its email as the saved row |
| Users.DeleteKeepsEmailsUnique | src/main/java/com/uca/parcialfinalncapas/service/impl/UserServiceImpl.java:59-65 | delete keeps emails unique |
| Users.UpdateCanDuplicateEmail | src/main/java/com/uca/parcialfinalncapas/service/impl/UserServiceImpl.java:47-57 | a two-user table with unique emails where a successful update gives both users the same email |
| Users.UserService.FindByCorreo | src/main/java/com/uca/parcialfinalncapas/service/impl/UserServiceImpl.java:24-30 | UserNotFound exactly when no stored user has the email; otherwise a stored user holding it |
| Users.UserService.Save | src/main/java/com/uca/parcialfinalncapas/service/impl/UserServiceImpl.java:32-45 | the result and the new user table are those of SaveSpec for some id not yet in use |
| Users.UserService.Update | src/main/java/com/uca/parcialfinalncapas/service/impl/UserServiceImpl.java:47-57 | the result and the new user table are those of UpdateSpec |
| Users.UserService.Delete | src/main/java/com/uca/parcialfinalncapas/service/impl/UserServiceImpl.java:59-65 | the result and the new user table are those of DeleteSpec |
| Users.UserService.FindAll | src/main/java/com/uca/parcialfinalncapas/service/impl/UserServiceImpl.java:67-70 | one entry per stored user, position i holding the user under the i-th smallest id |
| UserDetailsService.Authority | src/main/java/com/uca/parcialfinalncapas/service/impl/UserDetailsServiceImpl.java:25 | the authority granted for a role is "ROLE_" followed by the role, and it is the only string of that form |
| UserDetailsService.AuthorityInjective | src/main/java/com/uca/parcialfinalncapas/service/impl/UserDetailsServiceImpl.java:25 | the role is recovered from its authority by dropping "ROLE_", so two roles give the same authority only when they are equal |
| UserDetailsService.LoadUserByUsername | src/main/java/com/uca/parcialfinalncapas/service/impl/UserDetailsServiceImpl.java:19-31 | UsernameNotFound exactly when no stored user has the email; otherwise the username is that email and the password and single authority "ROLE_" + role come from a stored user holding it |
| UserDetailsService.LoadsStoredUser | src/main/java/com/uca/parcialfinalncapas/service/impl/UserDetailsServiceImpl.java:21-30 | with unique emails, loading a stored user's email yields that user's email, password hash and exactly its role's authority |
| Controller.IsTech | src/main/java/com/uca/parcialfinalncapas/controller/TicketController.java:33-34 | true exactly when some authority equals "ROLE_TECH" |
| Controller.HasRole | src/main/java/com/uca/parcialfinalncapas/controller/TicketController.java:81 | the hasRole gate used at lines 81, 98 and 115 holds exactly when one of the caller's authorities is "ROLE_" followed by the role |
| Controller.IsTechIsHasRoleTech | src/main/java/com/uca/parcialfinalncapas/controller/TicketController.java:33-34 | the controller's ROLE_TECH test agrees with hasRole('TECH') |
| Controller.ListTickets | src/main/java/com/uca/parcialfinalncapas/controller/TicketController.java:31-44 | never refused; BAD_REQUEST exactly when the list is empty and OK otherwise; a TECH succeeds exactly when no ticket refers to a missing user and gets one entry per ticket; any other caller with an unknown name gets UserNotFound and otherwise only entries whose requester is the caller's name; a TECH is raised exactly what getAllTickets raises and answered its list, any other caller exactly what getTicketsByUser raises for the caller's name and answered its list |
| Controller.TechListsEveryTicket | src/main/java/com/uca/parcialfinalncapas/controller/TicketController.java:36-37 | a TECH whose tickets all resolve is listed every stored ticket |
| Controller.UserListsOwnTickets | src/main/java/com/uca/parcialfinalncapas/controller/TicketController.java:36-38 | for a non-TECH caller, with keyed users, unique emails, the caller's name stored as an email and every ticket resolving, the call succeeds and lists exactly the entries of the full listing whose requester email is the caller's name |
| Controller.UserListsExactlyOwnTickets | src/main/java/com/uca/parcialfinalncapas/controller/TicketController.java:36-38 | for a non-TECH caller whose name is a stored email and each of whose tickets names a stored technician, the call succeeds and lists exactly the caller's own stored tickets, each once (one entry per ticket), with the caller's name as requester and the technician's stored email; nothing is assumed about other users' tickets or about unique emails |
| Controller.GetTicket | src/main/java/com/uca/parcialfinalncapas/controller/TicketController.java:51-74 | the service's error propagates unchanged (TicketNotFound, or UserNotFound for a missing user); FORBIDDEN with no data exactly when the ticket resolves, the caller is not TECH and the requester's email differs from the caller's name; otherwise OK with the ticket |
| Controller.OnlyRequesterOrTechSeesTicket | src/main/java/com/uca/parcialfinalncapas/controller/TicketController.java:61-69 | for a caller loaded from the user table, the ticket is refused exactly when the caller's stored role is not TECH and the caller is not the ticket's requester |
| Controller.CreateTicketHandler | src/main/java/com/uca/parcialfinalncapas/controller/TicketController.java:80-91 | a caller without role USER is refused with the table unchanged; otherwise the table becomes that of create with the caller's name as requester, create's error is raised unchanged, and success answers CREATED with create's response, the ticket made in the caller's name |
| Controller.CreateIgnoresRequestedEmail | src/main/java/com/uca/parcialfinalncapas/controller/TicketController.java:86-87 | the requester email in the request body has no effect on create |
| Controller.UpdateTicketHandler | src/main/java/com/uca/parcialfinalncapas/controller/TicketController.java:97-108 | a caller without role TECH is refused with the table unchanged; otherwise the table becomes that of update on the request carrying the path id, update's error is raised unchanged, and success answers OK with update's response, the ticket of that id |
| Controller.DeleteTicketHandler | src/main/java/com/uca/parcialfinalncapas/controller/TicketController.java:114-121 | a caller without role TECH is refused with the table unchanged; otherwise the gate passes and the table becomes that of delete: an absent id is TicketNotFound with the table unchanged, and success answers OK with no data after removing exactly that id and keeping every other ticket |
| Controller.LoadedCallerRoles | src/main/java/com/uca/parcialfinalncapas/service/impl/UserDetailsServiceImpl.java:25-29 | a caller loaded from the user table has its email as name, and holds TECH (by either test) or USER exactly when that is its stored role |
| Controller.StoredRoleGatesWrites | src/main/java/com/uca/parcialfinalncapas/controller/TicketController.java:80-121 | a stored USER passes the create gate but is refused update and delete with the table unchanged; a stored TECH is refused create and passes the update and delete gates |

## Left out

- **Login and tokens.** AuthController, JWT signing, expiry and the JWT filter are not part of this model. The controller lemmas assume the authenticated principal's name and authorities are those `loadUserByUsername` returned (`Controller.AuthenticationOf`).
- **Password hashing.** BCrypt is an arbitrary function `encoder` given to `UserService`. No property of the hash is assumed.
- **The security filter chain.** Public routes and the 401 for a missing token belong to Spring's filter machinery.
- **Transactions and concurrency.** `@Transactional` and concurrent writers are not modelled; every operation runs alone and completely.
- **ResponseBuilderUtil and the exception handler.**
  - The envelope is modelled as a (message, status, data) triple.
  - A propagated exception stays `Raised(error)`: the mapping of exceptions to HTTP statuses is not part of this model.
  - The exception messages are not modelled.
- **The mappers and entities.** TicketMapper, UserMapper and the entity classes are not part of this model.
  - A ticket's descriptive fields are one opaque `Details` value that update overwrites.
  - User responses are the stored rows themselves.
  - Whether the entities carry database constraints, such as a unique email column, is not known.
- **Identifier generation.** A fresh id is any key not in use. The methods pick one above every stored key, and their contracts promise only that it is unused.
- **Order of findAll.** The repository fixes no order. The model lists tickets and users by ascending id, and findByUsuarioId keeps that order.
- **Repository.FindByCorreo:** when several stored users share an email, it picks the one with the greatest id. A derived JPA query would throw in that case instead. Every property that depends on the choice requires unique emails.
- **The null check in getTicketById (TicketController.java:57-59).** It is not modelled: the service never returns null, since it throws instead.
- **Null and invalid request fields.** `@Valid` bean validation is not modelled, and ids are never null.
- **Role values.** `Rol.TECH.getValue()` is taken to be `"TECH"`, and the USER role to be `"USER"`; the Rol enum is not part of this model.
- **The service's reads.** They are pure functions and therefore change nothing. Queries that return Optional are modelled as map lookups.
- **Tickets.GetTicketsByUser:** the contract states when the call succeeds, its only error, the length of the list and the requester email of every entry. That the entries are exactly the user's own tickets is stated separately, by `Tickets.ByUserListsExactlyOwnTickets`, with no further assumption. `Tickets.ByUserIsRequestedByOfAll` relates the listing to the full listing; it needs unique emails and a full listing that succeeds.
