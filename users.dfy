/** The user-table operations of UserServiceImpl. Each write is specified by
    a pure function returning the result and the new table, and implemented
    by a method of UserService that changes userRepository.users in place. */
module Users {
  import opened Domain
  import opened Keys
  import opened Repository

  // UserMapper, which is not part of this model: the entity copies the
  // request's fields.

  function ToEntityCreate(req: UserCreateRequest, id: int): User {
    User(id, req.nombre, req.correo, req.password, req.nombreRol)
  }

  function ToEntityUpdate(req: UserUpdateRequest): User {
    User(req.id, req.nombre, req.correo, req.password, req.nombreRol)
  }

  /** save with the identifier the store hands out: reject an email already
      in the table (the source throws UserNotFoundException for it), store
      the encoder's output in place of the password, then insert. */
  function SaveSpec(users: map<int, User>, req: UserCreateRequest, encode: string -> string, id: int)
    : (out: (Result<User>, map<int, User>))
    requires id !in users
    ensures HasEmail(users, req.correo) ==> out == (Err(UserNotFound), users)
    ensures out.0.Ok? <==> !HasEmail(users, req.correo)
    ensures out.0.Ok? ==> out.0.value.password == encode(req.password)
    ensures out.0.Ok? ==> out.0.value.id == id && out.0.value.correo == req.correo
                          && out.0.value.nombre == req.nombre && out.0.value.nombreRol == req.nombreRol
    ensures out.0.Ok? ==> out.1 == users[id := out.0.value] && |out.1| == |users| + 1
    ensures UniqueEmails(users) ==> UniqueEmails(out.1)
  {
    if FindByCorreo(users, req.correo).Some? then (Err(UserNotFound), users)
    else
      var hashed := encode(req.password);
      var entity := ToEntityCreate(req, id).(password := hashed);
      (Ok(entity), users[id := entity])
  }

  /** update: reject an id not in the table, otherwise overwrite that row
      with the request's fields. */
  function UpdateSpec(users: map<int, User>, req: UserUpdateRequest): (out: (Result<User>, map<int, User>))
    ensures req.id !in users ==> out == (Err(UserNotFound), users)
    ensures out.0.Ok? <==> req.id in users
    ensures out.0.Ok? ==> out.1.Keys == users.Keys && out.1[req.id] == out.0.value
    ensures out.0.Ok? ==> out.0.value == User(req.id, req.nombre, req.correo, req.password, req.nombreRol)
    ensures forall k :: k in users && k != req.id ==> k in out.1 && out.1[k] == users[k]
  {
    if req.id !in users then (Err(UserNotFound), users)
    else
      var saved := ToEntityUpdate(req);
      (Ok(saved), users[saved.id := saved])
  }

  /** delete: reject an id not in the table, otherwise remove that key. */
  function DeleteSpec(users: map<int, User>, id: int): (out: (Result<()>, map<int, User>))
    ensures out.0.Ok? <==> id in users
    ensures out.0.Err? ==> out.0.error == UserNotFound && out.1 == users
    ensures out.0.Ok? ==> out.1.Keys == users.Keys - {id} && |out.1| == |users| - 1
    ensures forall k :: k in out.1 ==> k in users && out.1[k] == users[k]
  {
    if id !in users then (Err(UserNotFound), users)
    else (Ok(()), users - {id})
  }

  /** A saved user is found again by its email, with the hashed password. */
  lemma SaveThenFind(users: map<int, User>, req: UserCreateRequest, encode: string -> string, id: int)
    requires UniqueEmails(users)
    requires id !in users
    requires SaveSpec(users, req, encode, id).0.Ok?
    ensures var out := SaveSpec(users, req, encode, id);
            FindByCorreo(out.1, req.correo) == Some(out.0.value)
  {
    var out := SaveSpec(users, req, encode, id);
    FindByCorreoFindsOwner(out.1, id);
  }

  /** Deleting a user keeps the emails unique; so does saving (SaveSpec). */
  lemma DeleteKeepsEmailsUnique(users: map<int, User>, id: int)
    requires UniqueEmails(users)
    ensures UniqueEmails(DeleteSpec(users, id).1)
  {
  }

  /** Update does not re-check the email: it can give a user an email that
      another user already holds. */
  lemma UpdateCanDuplicateEmail()
    ensures var users := map[1 := User(1, "Ana", "ana@uca.edu.sv", "h1", USER),
                             2 := User(2, "Luis", "luis@uca.edu.sv", "h2", USER)];
            var req := UserUpdateRequest(2, "Luis", "ana@uca.edu.sv", "h2", USER);
            && UsersKeyed(users) && UniqueEmails(users)
            && UpdateSpec(users, req).0.Ok?
            && !UniqueEmails(UpdateSpec(users, req).1)
  {
    var users := map[1 := User(1, "Ana", "ana@uca.edu.sv", "h1", USER),
                     2 := User(2, "Luis", "luis@uca.edu.sv", "h2", USER)];
    assert users[1].correo != users[2].correo;
    var req := UserUpdateRequest(2, "Luis", "ana@uca.edu.sv", "h2", USER);
    var after := UpdateSpec(users, req).1;
    assert after[1].correo == after[2].correo;
  }

  /** The service, over the user table. The encoder is the injected
      BCryptPasswordEncoder, taken as an arbitrary function. */
  class UserService {
    const userRepository: UserRepository
    const encoder: string -> string

    ghost predicate Valid()
      reads userRepository
    {
      userRepository.Valid()
    }

    constructor (userRepository: UserRepository, encoder: string -> string)
      ensures this.userRepository == userRepository && this.encoder == encoder
    {
      this.userRepository := userRepository;
      this.encoder := encoder;
    }

    /** findByCorreo: the stored user with this email, or UserNotFound. */
    method FindByCorreo(correo: string) returns (r: Result<User>)
      ensures r.Err? <==> !HasEmail(userRepository.users, correo)
      ensures r.Err? ==> r.error == UserNotFound
      ensures r.Ok? ==> r.value in userRepository.users.Values && r.value.correo == correo
    {
      var found := Repository.FindByCorreo(userRepository.users, correo);
      if found.None? {
        r := Err(UserNotFound);
      } else {
        r := Ok(found.value);
      }
    }

    /** save: the table becomes what SaveSpec says for some identifier not
        yet in use. */
    method Save(req: UserCreateRequest) returns (r: Result<User>)
      requires Valid()
      modifies userRepository
      ensures Valid()
      ensures exists id :: id !in old(userRepository.users)
                && (r, userRepository.users) == SaveSpec(old(userRepository.users), req, encoder, id)
    {
      var id := NextKey(userRepository.users.Keys);
      ghost var spec := SaveSpec(userRepository.users, req, encoder, id);
      if Repository.FindByCorreo(userRepository.users, req.correo).Some? {
        r := Err(UserNotFound);
        assert (r, userRepository.users) == spec;
        return;
      }
      var hashed := encoder(req.password);
      var entity := ToEntityCreate(req, id);
      entity := entity.(password := hashed);
      userRepository.users := userRepository.users[id := entity];
      r := Ok(entity);
      assert (r, userRepository.users) == spec;
    }

    /** update: the table becomes what UpdateSpec says. */
    method Update(req: UserUpdateRequest) returns (r: Result<User>)
      requires Valid()
      modifies userRepository
      ensures Valid()
      ensures (r, userRepository.users) == UpdateSpec(old(userRepository.users), req)
    {
      if req.id !in userRepository.users {
        return Err(UserNotFound);
      }
      var saved := ToEntityUpdate(req);
      userRepository.users := userRepository.users[saved.id := saved];
      r := Ok(saved);
    }

    /** delete: the table becomes what DeleteSpec says. */
    method Delete(id: int) returns (r: Result<()>)
      requires Valid()
      modifies userRepository
      ensures Valid()
      ensures (r, userRepository.users) == DeleteSpec(old(userRepository.users), id)
    {
      if id !in userRepository.users {
        return Err(UserNotFound);
      }
      userRepository.users := userRepository.users - {id};
      r := Ok(());
    }

    /** findAll: every stored user once, by ascending id. */
    method FindAll() returns (r: seq<User>)
      ensures |r| == |userRepository.users|
      ensures forall i :: 0 <= i < |r| ==>
                var k := Ascending(userRepository.users.Keys)[i];
                k in userRepository.users && r[i] == userRepository.users[k]
    {
      r := InKeyOrder(userRepository.users);
    }
  }
}
