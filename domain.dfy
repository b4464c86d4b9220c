/** Records, requests, responses and error kinds of the ticketing backend.
    Field names follow the Java entities and DTOs (correo = email,
    usuarioId = requester id, tecnicoAsignadoId = assigned technician id). */
module Domain {

  datatype Option<+T> = None | Some(value: T)

  /** The exceptions the services throw, as values. */
  datatype Error =
    | UserNotFound        // UserNotFoundException
    | TicketNotFound      // TicketNotFoundException
    | BadTicketRequest    // BadTicketRequestException
    | UsernameNotFound    // Spring's UsernameNotFoundException

  /** The result of a service call: a value, or the exception it throws. */
  datatype Result<+T> = Ok(value: T) | Err(error: Error)

  /** The two values of the Rol enum, as stored in a user's nombreRol. */
  const TECH: string := "TECH"
  const USER: string := "USER"

  /** A row of the user table; password holds the encoder's output. */
  datatype User = User(id: int, nombre: string, correo: string, password: string, nombreRol: string)

  /** The descriptive fields of a ticket (title, description, state, ...),
      which no business rule inspects. */
  datatype Details = Details(fields: seq<string>)

  /** A row of the ticket table. */
  datatype Ticket = Ticket(id: int, usuarioId: int, tecnicoAsignadoId: int, details: Details)

  datatype TicketCreateRequest = TicketCreateRequest(correoUsuario: string, correoSoporte: string, details: Details)

  datatype TicketUpdateRequest = TicketUpdateRequest(id: int, correoSoporte: string, details: Details)

  /** A ticket joined back to the emails of its requester and technician. */
  datatype TicketResponse = TicketResponse(id: int, details: Details, correoSolicitante: string, correoSoporte: string)

  datatype UserCreateRequest = UserCreateRequest(nombre: string, correo: string, password: string, nombreRol: string)

  datatype UserUpdateRequest = UserUpdateRequest(id: int, nombre: string, correo: string, password: string, nombreRol: string)
}
