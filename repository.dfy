/** The two tables behind the services, as maps from id to row, and the
    repository queries the services use (UserRepository.findByCorreo,
    TicketRepository.findAll and findByUsuarioId). */
module Repository {
  import opened Domain
  import opened Keys

  /** Every row carries its own key as its id. */
  predicate UsersKeyed(users: map<int, User>) {
    forall k :: k in users ==> users[k].id == k
  }

  predicate TicketsKeyed(tickets: map<int, Ticket>) {
    forall k :: k in tickets ==> tickets[k].id == k
  }

  /** Some stored user has this email. */
  predicate HasEmail(users: map<int, User>, correo: string) {
    exists k :: k in users && users[k].correo == correo
  }

  /** No two stored users share an email. */
  predicate UniqueEmails(users: map<int, User>) {
    forall j, k :: j in users && k in users && users[j].correo == users[k].correo ==> j == k
  }

  /** The user table (UserRepository). */
  class UserRepository {
    var users: map<int, User>

    ghost predicate Valid()
      reads this
    {
      UsersKeyed(users)
    }

    constructor ()
      ensures Valid() && users == map[]
    {
      users := map[];
    }
  }

  /** The ticket table (TicketRepository). */
  class TicketRepository {
    var tickets: map<int, Ticket>

    ghost predicate Valid()
      reads this
    {
      TicketsKeyed(tickets)
    }

    constructor ()
      ensures Valid() && tickets == map[]
    {
      tickets := map[];
    }
  }

  /** userRepository.findByCorreo: a search over the stored users. When
      several users share the email the row with the greatest id is taken;
      under UniqueEmails there is at most one candidate. */
  function FindByCorreo(users: map<int, User>, correo: string): (r: Option<User>)
    ensures r.None? <==> !HasEmail(users, correo)
    ensures r.Some? ==> r.value in users.Values && r.value.correo == correo
  {
    var ids := IdsWithEmail(users, correo);
    if ids == {} then None else Some(users[Greatest(ids)])
  }

  /** The ids of the stored users holding this email. */
  function IdsWithEmail(users: map<int, User>, correo: string): (ids: set<int>)
    ensures forall k :: k in ids <==> k in users && users[k].correo == correo
    ensures ids != {} <==> HasEmail(users, correo)
  {
    var ids := set k | k in users && users[k].correo == correo;
    HasElement(ids);
    ids
  }

  /** With unique emails, the search by email finds exactly the user holding it. */
  lemma FindByCorreoFindsOwner(users: map<int, User>, k: int)
    requires UniqueEmails(users)
    requires k in users
    ensures FindByCorreo(users, users[k].correo) == Some(users[k])
  {
    var ids := IdsWithEmail(users, users[k].correo);
    forall j | j in ids ensures j == k {
      assert users[j].correo == users[k].correo;
    }
    assert ids == {k};
  }

  /** With keyed rows, a found user is the row stored under its own id. */
  lemma FoundUserIsStoredUnderId(users: map<int, User>, correo: string)
    requires UsersKeyed(users)
    requires FindByCorreo(users, correo).Some?
    ensures var u := FindByCorreo(users, correo).value;
            u.id in users && users[u.id] == u && u.correo == correo
  {
    var u := FindByCorreo(users, correo).value;
    var k :| k in users && users[k] == u;
  }

  /** ticketRepository.findAll: every stored ticket once, by ascending id. */
  function FindAll(tickets: map<int, Ticket>): (r: seq<Ticket>)
    ensures |r| == |tickets|
    ensures forall i :: 0 <= i < |r| ==> Ascending(tickets.Keys)[i] in tickets && r[i] == tickets[Ascending(tickets.Keys)[i]]
  {
    InKeyOrder(tickets)
  }

  /** Every stored ticket has a position in findAll. */
  lemma FindAllListsEvery(tickets: map<int, Ticket>, k: int)
    requires k in tickets
    ensures exists i :: 0 <= i < |FindAll(tickets)| && FindAll(tickets)[i] == tickets[k]
  {
    InKeyOrderListsEvery(tickets, k);
    assert FindAll(tickets) == InKeyOrder(tickets);
  }

  /** The tickets of ts whose requester is uid, in the order of ts. */
  function OwnedBy(ts: seq<Ticket>, uid: int): (r: seq<Ticket>)
    ensures forall t :: t in r <==> t in ts && t.usuarioId == uid
  {
    if ts == [] then []
    else if ts[0].usuarioId == uid then [ts[0]] + OwnedBy(ts[1..], uid)
    else OwnedBy(ts[1..], uid)
  }

  /** ticketRepository.findByUsuarioId: the tickets of findAll whose
      requester is uid; it lists only stored tickets of that requester, and
      all of them. */
  function FindByUsuarioId(tickets: map<int, Ticket>, uid: int): (r: seq<Ticket>)
    ensures forall t :: t in r ==> t.usuarioId == uid && exists k :: k in tickets && tickets[k] == t
    ensures forall k :: k in tickets && tickets[k].usuarioId == uid ==> tickets[k] in r
    ensures |r| == |OwnIds(tickets, uid)|
  {
    OwnedByAllIsFilter(tickets, uid);
    OwnedByAllCount(tickets, uid);
    OwnedBy(FindAll(tickets), uid)
  }

  /** The ids of the stored tickets whose requester is uid. */
  function OwnIds(tickets: map<int, Ticket>, uid: int): set<int> {
    set k | k in tickets && tickets[k].usuarioId == uid
  }

  /** The rows stored under the keys ks, in the order of ks. */
  function Rows(tickets: map<int, Ticket>, ks: seq<int>): (r: seq<Ticket>)
    requires forall i :: 0 <= i < |ks| ==> ks[i] in tickets
    ensures |r| == |ks|
    ensures forall i :: 0 <= i < |ks| ==> r[i] == tickets[ks[i]]
  {
    if ks == [] then [] else [tickets[ks[0]]] + Rows(tickets, ks[1..])
  }

  /** The keys of ks holding a ticket of requester uid. */
  function OwnKeysIn(tickets: map<int, Ticket>, ks: seq<int>, uid: int): set<int> {
    set k | k in ks && k in tickets && tickets[k].usuarioId == uid
  }

  /** Over strictly ascending keys, the rows of requester uid are as many as
      the keys holding them: no ticket is listed twice. */
  lemma {:induction false} OwnedRowsCount(tickets: map<int, Ticket>, ks: seq<int>, uid: int)
    requires forall i :: 0 <= i < |ks| ==> ks[i] in tickets
    requires forall i, j :: 0 <= i < j < |ks| ==> ks[i] < ks[j]
    ensures |OwnedBy(Rows(tickets, ks), uid)| == |OwnKeysIn(tickets, ks, uid)|
  {
    if ks != [] {
      var rest := ks[1..];
      OwnedRowsCount(tickets, rest, uid);
      var rows := Rows(tickets, ks);
      assert rows[1..] == Rows(tickets, rest);
      var own := if rows[0].usuarioId == uid then 1 else 0;
      assert |OwnedBy(rows, uid)| == own + |OwnedBy(rows[1..], uid)|;
      OwnKeysStep(tickets, ks, uid);
    }
  }

  /** Peeling the first of strictly ascending keys off the owned key set. */
  lemma OwnKeysStep(tickets: map<int, Ticket>, ks: seq<int>, uid: int)
    requires ks != []
    requires ks[0] in tickets
    requires forall j :: 0 < j < |ks| ==> ks[0] < ks[j]
    ensures |OwnKeysIn(tickets, ks, uid)|
            == (if tickets[ks[0]].usuarioId == uid then 1 else 0) + |OwnKeysIn(tickets, ks[1..], uid)|
  {
    var rest := ks[1..];
    var tail := OwnKeysIn(tickets, rest, uid);
    forall j | 0 <= j < |rest| ensures rest[j] != ks[0] {
      assert rest[j] == ks[j + 1];
    }
    assert ks[0] !in tail;
    forall k | k in ks ensures k == ks[0] || k in rest {
      var i :| 0 <= i < |ks| && ks[i] == k;
      if i > 0 { assert rest[i - 1] == k; }
    }
    if tickets[ks[0]].usuarioId == uid {
      assert OwnKeysIn(tickets, ks, uid) == {ks[0]} + tail;
    } else {
      assert OwnKeysIn(tickets, ks, uid) == tail;
    }
  }

  lemma OwnedByAllCount(tickets: map<int, Ticket>, uid: int)
    ensures |OwnedBy(FindAll(tickets), uid)| == |OwnIds(tickets, uid)|
  {
    var ks := Ascending(tickets.Keys);
    AscendingIsSorted(tickets.Keys);
    FindAllIsRows(tickets);
    OwnedRowsCount(tickets, ks, uid);
    OwnKeysOfAll(tickets, uid);
  }

  /** findAll is the rows under the ascending keys. */
  lemma FindAllIsRows(tickets: map<int, Ticket>)
    ensures forall i :: 0 <= i < |Ascending(tickets.Keys)| ==> Ascending(tickets.Keys)[i] in tickets
    ensures FindAll(tickets) == Rows(tickets, Ascending(tickets.Keys))
  {
    var ks := Ascending(tickets.Keys);
    var rows := Rows(tickets, ks);
    var all := FindAll(tickets);
    assert |all| == |rows|;
    forall i | 0 <= i < |all| ensures all[i] == rows[i] {
    }
  }

  /** Over all stored keys, the owned keys are the owned ids. */
  lemma OwnKeysOfAll(tickets: map<int, Ticket>, uid: int)
    ensures OwnKeysIn(tickets, Ascending(tickets.Keys), uid) == OwnIds(tickets, uid)
  {
  }

  lemma OwnedByAllIsFilter(tickets: map<int, Ticket>, uid: int)
    ensures forall t :: t in OwnedBy(FindAll(tickets), uid) ==>
              t.usuarioId == uid && exists k :: k in tickets && tickets[k] == t
    ensures forall k :: k in tickets && tickets[k].usuarioId == uid ==> tickets[k] in OwnedBy(FindAll(tickets), uid)
  {
    var all := FindAll(tickets);
    forall k | k in tickets && tickets[k].usuarioId == uid ensures tickets[k] in OwnedBy(all, uid) {
      FindAllListsEvery(tickets, k);
    }
    forall t | t in OwnedBy(all, uid) ensures t.usuarioId == uid && exists k :: k in tickets && tickets[k] == t {
      var i :| 0 <= i < |all| && all[i] == t;
      var k := Ascending(tickets.Keys)[i];
      assert k in tickets && tickets[k] == t;
    }
  }
}
