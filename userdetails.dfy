/** UserDetailsServiceImpl: the bridge from a stored user to the principal
    Spring Security authenticates, with a single authority "ROLE_" + role. */
module UserDetailsService {
  import opened Domain
  import opened Repository

  /** Spring's UserDetails as built here: username, password hash and the
      granted authorities, in order. */
  datatype UserDetails = UserDetails(username: string, password: string, authorities: seq<string>)

  /** The prefix Spring Security's hasRole expects in front of a role name. */
  const ROLE_PREFIX: string := "ROLE_"

  /** The authority a names the role: it is the prefix followed by the role. */
  predicate NamesRole(a: string, role: string) {
    |ROLE_PREFIX| <= |a| && a[..|ROLE_PREFIX|] == ROLE_PREFIX && a[|ROLE_PREFIX|..] == role
  }

  /** The prefix followed by the role is the only string naming the role. */
  lemma PrefixedIsUnique(role: string)
    ensures forall a :: NamesRole(a, role) ==> a == ROLE_PREFIX + role
  {
    forall a | NamesRole(a, role) ensures a == ROLE_PREFIX + role {
      assert a == a[..|ROLE_PREFIX|] + a[|ROLE_PREFIX|..];
    }
  }

  /** The authority granted for a role: the one string naming it. */
  function Authority(role: string): (a: string)
    ensures NamesRole(a, role)
    ensures forall b :: NamesRole(b, role) ==> b == a
  {
    PrefixedIsUnique(role);
    assert (ROLE_PREFIX + role)[|ROLE_PREFIX|..] == role;
    ROLE_PREFIX + role
  }

  /** Different roles give different authorities: the role can be read back
      from the authority by dropping the prefix. */
  lemma AuthorityInjective(a: string, b: string)
    ensures Authority(a)[|ROLE_PREFIX|..] == a
    ensures Authority(a) == Authority(b) <==> a == b
  {
    assert Authority(a)[|ROLE_PREFIX|..] == a;
    assert Authority(b)[|ROLE_PREFIX|..] == b;
  }

  /** loadUserByUsername: look the email up, fail with UsernameNotFound
      when no user holds it, otherwise grant exactly the role's authority. */
  function LoadUserByUsername(users: map<int, User>, correo: string): (r: Result<UserDetails>)
    ensures r.Err? <==> !HasEmail(users, correo)
    ensures r.Err? ==> r.error == UsernameNotFound
    ensures r.Ok? ==> r.value.username == correo && |r.value.authorities| == 1
    ensures r.Ok? ==> exists u :: u in users.Values && u.correo == correo
                        && r.value.password == u.password && r.value.authorities == [Authority(u.nombreRol)]
  {
    match FindByCorreo(users, correo)
    case None => Err(UsernameNotFound)
    case Some(user) =>
      var authority := Authority(user.nombreRol);
      Ok(UserDetails(user.correo, user.password, [authority]))
  }

  /** With unique emails, loading a stored user's email yields exactly that
      user's email, hash and role authority. */
  lemma LoadsStoredUser(users: map<int, User>, k: int)
    requires UniqueEmails(users)
    requires k in users
    ensures LoadUserByUsername(users, users[k].correo)
            == Ok(UserDetails(users[k].correo, users[k].password, [Authority(users[k].nombreRol)]))
  {
    FindByCorreoFindsOwner(users, k);
  }
}
