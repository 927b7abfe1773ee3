/** The registries of pysketch/game.py: `RoomList` (rooms by name) and
    `UserList` (logged-in users by connection id). */
module Lobby {
  import opened Outcomes
  import opened Users
  import opened Text
  import Rooms

  type RoomMap = map<string, Rooms.Room>

  datatype LookupError = NoSuchRoom

  /** `RoomList.get`: the room of that name, or `NoSuchRoomError`. */
  function GetRoom(rooms: RoomMap, name: string): (r: Result<Rooms.Room, LookupError>)
    ensures r.Ok? <==> name in rooms
    ensures r.Ok? ==> r.value == rooms[name]
  {
    if name in rooms then Ok(rooms[name]) else Err(NoSuchRoom)
  }

  datatype CreateError = RoomExists | BadParams(cause: Rooms.RoomError)

  /** `RoomList.create`: a name already taken is refused, and so are
      parameters the room's own assertion refuses; otherwise exactly one
      room, new and empty, is added under that name. */
  function CreateRoom(rooms: RoomMap, name: string, params: Rooms.Params): (r: Result<RoomMap, CreateError>)
    ensures r == Err(RoomExists) <==> name in rooms
    ensures name !in rooms ==> (r.Err? <==> params.minPlayerCount <= 1)
    ensures r.Ok? ==>
      r.value.Keys == rooms.Keys + {name}
      && (forall n :: n in rooms ==> r.value[n] == rooms[n])
      && Rooms.Valid(r.value[name]) && r.value[name].users == [] && r.value[name].state == Rooms.Waiting
  {
    if name in rooms then Err(RoomExists)
    else match Rooms.NewRoom(name, params)
      case Err(e) => Err(BadParams(e))
      case Ok(room) => Ok(rooms[name := room])
  }

  /** A created room is then found by name. */
  lemma CreateThenGet(rooms: RoomMap, name: string, params: Rooms.Params)
    requires name !in rooms && params.minPlayerCount > 1
    ensures CreateRoom(rooms, name, params).Ok?
    ensures GetRoom(CreateRoom(rooms, name, params).value, name).Ok?
    ensures GetRoom(CreateRoom(rooms, name, params).value, name).value.users == []
  {
  }

  type Accounts = map<Sid, User>

  /** Some logged-in user already has a non-empty name equal to `name`
      ignoring case. */
  predicate NameTaken(accounts: Accounts, name: string) {
    exists sid :: sid in accounts && accounts[sid].name != "" && LowerStr(accounts[sid].name) == LowerStr(name)
  }

  /** No two connections hold names equal ignoring case. */
  predicate UniqueNames(accounts: Accounts) {
    forall s, t :: s in accounts && t in accounts && s != t && accounts[s].name != "" && accounts[t].name != ""
      ==> LowerStr(accounts[s].name) != LowerStr(accounts[t].name)
  }

  datatype LoginError = NameInUse

  /** `UserList.login`: refused when the name is taken ignoring case;
      otherwise the connection gets a new user object with that name, told
      apart from every other by `serial` (a second login on the same
      connection replaces the first user). */
  function Login(accounts: Accounts, sid: Sid, name: string, serial: nat): (r: Result<Accounts, LoginError>)
    ensures r.Err? <==> NameTaken(accounts, name)
    ensures r.Ok? ==> r.value.Keys == accounts.Keys + {sid} && r.value[sid] == User(sid, name, serial)
    ensures r.Ok? ==> forall s :: s in accounts && s != sid ==> r.value[s] == accounts[s]
  {
    if NameTaken(accounts, name) then Err(NameInUse)
    else Ok(accounts[sid := User(sid, name, serial)])
  }

  /** Logins keep names unique ignoring case. */
  lemma LoginKeepsNamesUnique(accounts: Accounts, sid: Sid, name: string, serial: nat)
    requires UniqueNames(accounts)
    requires Login(accounts, sid, name, serial).Ok?
    ensures UniqueNames(Login(accounts, sid, name, serial).value)
  {
    var r := Login(accounts, sid, name, serial).value;
    forall s, t | s in r && t in r && s != t && r[s].name != "" && r[t].name != ""
      ensures LowerStr(r[s].name) != LowerStr(r[t].name)
    {
      if s == sid {
        assert t in accounts && r[t] == accounts[t];
        assert !(accounts[t].name != "" && LowerStr(accounts[t].name) == LowerStr(name));
      } else if t == sid {
        assert s in accounts && r[s] == accounts[s];
        assert !(accounts[s].name != "" && LowerStr(accounts[s].name) == LowerStr(name));
      }
    }
  }

  /** Once a name is in use, the same name in any other case is refused. */
  lemma SameNameOtherCaseRefused(accounts: Accounts, sid: Sid, sid2: Sid, name: string, other: string, serial: nat, serial2: nat)
    requires Login(accounts, sid, name, serial).Ok? && name != "" && LowerStr(other) == LowerStr(name)
    ensures Login(Login(accounts, sid, name, serial).value, sid2, other, serial2) == Err(NameInUse)
  {
    var r := Login(accounts, sid, name, serial).value;
    assert r[sid].name != "" && LowerStr(r[sid].name) == LowerStr(other);
  }

  /** `UserList.quit`'s bookkeeping: the connection's user is forgotten;
      an unknown connection changes nothing. */
  function Quit(accounts: Accounts, sid: Sid): (r: Accounts)
    ensures sid !in r
    ensures r.Keys == accounts.Keys - {sid}
    ensures forall s :: s in r ==> r[s] == accounts[s]
  {
    accounts - {sid}
  }
}

/** The request handlers of pysketchd.py around the room engine: who is
    logged in, which room each user is in, who is away, and the rooms. */
module Server {
  import opened Outcomes
  import opened Users
  import opened Text
  import Rooms
  import Lobby
  import Util

  /** `room`'s sole entry, built with the legacy room defaults. */
  const DefaultRoom: string := "default"

  /** Everything the handlers touch. `roomOf` is `user.room`; `away` holds
      the users whose `away` flag is set; `logins` counts the user objects
      made so far and so numbers the next one. */
  datatype World = World(
    accounts: Lobby.Accounts,
    roomOf: map<User, string>,
    away: set<User>,
    rooms: Lobby.RoomMap,
    logins: nat)

  /** The rooms are linked up and every user the world knows was made by an
      earlier login. */
  predicate Valid(w: World) {
    Linked(w) && Numbered(w)
  }

  /** Every room is sound; a user's room exists and lists the user; a
      listed user's room is that room (so nobody is in two rooms). */
  predicate Linked(w: World) {
    (forall n :: n in w.rooms ==> Rooms.Valid(w.rooms[n]))
    && (forall u :: u in w.roomOf ==> w.roomOf[u] in w.rooms && u in w.rooms[w.roomOf[u]].users)
    && (forall n, u :: n in w.rooms && u in w.rooms[n].users ==> u in w.roomOf && w.roomOf[u] == n)
  }

  /** The serials of the logged-in users, of the users in rooms and of the
      away users all lie below the login count. */
  predicate Numbered(w: World) {
    (forall s :: s in w.accounts ==> w.accounts[s].serial < w.logins)
    && (forall u :: u in w.roomOf ==> u.serial < w.logins)
    && (forall u :: u in w.away ==> u.serial < w.logins)
  }

  /** The server at start-up: nobody connected and one empty room. */
  function Initial(): (w: World)
    ensures Valid(w) && w.rooms.Keys == {DefaultRoom} && w.accounts == map[]
    ensures w.roomOf == map[] && w.away == {} && w.logins == 0 && w.rooms[DefaultRoom].users == []
    ensures w.rooms[DefaultRoom].state == Rooms.Waiting && w.rooms[DefaultRoom].params == Rooms.LegacyDefaults
  {
    var room := Rooms.Room(DefaultRoom, 1, Rooms.LegacyDefaults, [], [], map[], Rooms.Waiting);
    assert Rooms.NewRoom(DefaultRoom, Rooms.LegacyDefaults) == Ok(room);
    World(map[], map[], {}, map[DefaultRoom := room], 0)
  }

  /** A character of the class `[A-Za-z0-9_]`. */
  predicate NameChar(c: char) {
    'A' <= c <= 'Z' || 'a' <= c <= 'z' || '0' <= c <= '9' || c == '_'
  }

  predicate NameRun(s: string) {
    2 <= |s| <= 20 && forall i :: 0 <= i < |s| ==> NameChar(s[i])
  }

  /** `VALID_NAME_PATTERN.match`: 2 to 20 name characters; since Python's
      `$` also matches just before a final newline, one trailing newline
      is let through too. */
  predicate ValidName(name: string) {
    NameRun(name) || (|name| > 0 && name[|name| - 1] == '\n' && NameRun(name[..|name| - 1]))
  }

  /** The name check admits exactly the plain names plus those names with
      one trailing newline: any other character anywhere fails. */
  lemma ValidNameShape(name: string)
    ensures ValidName(name) <==>
      (2 <= |name| <= 20 && forall i :: 0 <= i < |name| ==> NameChar(name[i]))
      || (3 <= |name| <= 21 && name[|name| - 1] == '\n'
          && forall i :: 0 <= i < |name| - 1 ==> NameChar(name[i]))
  {
    if 3 <= |name| && name[|name| - 1] == '\n' {
      assert forall i :: 0 <= i < |name| - 1 ==> name[..|name| - 1][i] == name[i];
    }
  }

  /** A name followed by a newline gets past the check. */
  lemma TrailingNewlineAccepted(name: string)
    requires NameRun(name)
    ensures ValidName(name + "\n")
    ensures !NameRun(name + "\n")
  {
    assert (name + "\n")[..|name|] == name;
    assert !NameChar((name + "\n")[|name|]);
  }

  datatype Alert = BadName | NameInUse | NoSuchRoom

  /** What a handler leaves behind: the world and the alert it emitted, if any. */
  datatype Reply = Reply(world: World, alert: Option<Alert>)

  /** The `login` handler: a bad name or a taken one is answered with an
      alert and changes nothing; otherwise the connection is logged in. */
  function Login(w: World, sid: Sid, username: string): (r: Reply)
    requires Valid(w)
    ensures Valid(r.world)
    ensures !ValidName(username) ==> r == Reply(w, Some(BadName))
    ensures ValidName(username) && Lobby.NameTaken(w.accounts, username) ==> r == Reply(w, Some(NameInUse))
    ensures ValidName(username) && !Lobby.NameTaken(w.accounts, username) ==>
      var u := User(sid, username, w.logins);
      r.alert == None && r.world == w.(accounts := w.accounts[sid := u], logins := w.logins + 1)
      && u !in w.roomOf && u !in w.away && (forall n :: n in w.rooms ==> u !in w.rooms[n].users)
  {
    if !ValidName(username) then Reply(w, Some(BadName))
    else match Lobby.Login(w.accounts, sid, username, w.logins)
      case Err(_) => Reply(w, Some(NameInUse))
      case Ok(accounts) => Reply(w.(accounts := accounts, logins := w.logins + 1), None)
  }

  /** `user.room.part(user)` when the user is in a room: the user is then in
      no room, and nothing else changes. `part` itself leaves `user.room`
      pointing at the old room; the model drops that link, which changes no
      behaviour, because every caller either joins another room at once,
      which overwrites it, or forgets the user. */
  function Leave(w: World, u: User): (r: World)
    requires Valid(w)
    ensures Valid(r)
    ensures u !in r.roomOf && r.roomOf == w.roomOf - {u}
    ensures forall n :: n in r.rooms ==> u !in r.rooms[n].users
    ensures r.accounts == w.accounts && r.away == w.away && r.rooms.Keys == w.rooms.Keys && r.logins == w.logins
    ensures u !in w.roomOf ==> r == w
    ensures u in w.roomOf ==> r.rooms == w.rooms[w.roomOf[u] := Rooms.Part(w.rooms[w.roomOf[u]], u)]
  {
    if u !in w.roomOf then w
    else
      var n := w.roomOf[u];
      var r := w.(roomOf := w.roomOf - {u}, rooms := w.rooms[n := Rooms.Part(w.rooms[n], u)]);
      PartKeepsOthers(w.rooms[n], u);
      PartedValid(w, u, Rooms.Part(w.rooms[n], u));
      r
  }

  /** No room's roster holds `u`. */
  predicate InNoRoom(rooms: map<string, Rooms.Room>, u: User) {
    forall n :: n in rooms ==> u !in rooms[n].users
  }

  /** Replacing a user's room by one without that user, and forgetting the
      user's room, keeps the world consistent. */
  lemma PartedValid(w: World, u: User, room: Rooms.Room)
    requires Valid(w) && u in w.roomOf && Rooms.Valid(room)
    requires forall v :: v in room.users <==> v in w.rooms[w.roomOf[u]].users && v != u
    ensures Valid(w.(roomOf := w.roomOf - {u}, rooms := w.rooms[w.roomOf[u] := room]))
    ensures InNoRoom(w.rooms[w.roomOf[u] := room], u)
  {
    PartedLinked(w, u, room);
    var rooms := w.rooms[w.roomOf[u] := room];
    forall m | m in rooms ensures u !in rooms[m].users {
      if m != w.roomOf[u] {
        assert rooms[m] == w.rooms[m];
      }
    }
  }

  lemma PartedLinked(w: World, u: User, room: Rooms.Room)
    requires Linked(w) && u in w.roomOf && Rooms.Valid(room)
    requires forall v :: v in room.users <==> v in w.rooms[w.roomOf[u]].users && v != u
    ensures Linked(w.(roomOf := w.roomOf - {u}, rooms := w.rooms[w.roomOf[u] := room]))
  {
    var n := w.roomOf[u];
    var r := w.(roomOf := w.roomOf - {u}, rooms := w.rooms[n := room]);
    forall v | v in r.roomOf ensures r.roomOf[v] in r.rooms && v in r.rooms[r.roomOf[v]].users {
      var m := w.roomOf[v];
      assert v != u && r.roomOf[v] == m;
      assert m in w.rooms && v in w.rooms[m].users;
      if m != n {
        assert r.rooms[m] == w.rooms[m];
      }
    }
    forall m, v | m in r.rooms && v in r.rooms[m].users ensures v in r.roomOf && r.roomOf[v] == m {
      if m == n {
        assert v in w.rooms[n].users && v != u;
      } else {
        assert r.rooms[m] == w.rooms[m];
      }
      assert v in w.roomOf && w.roomOf[v] == m;
    }
  }

  /** `rooms[name].join(user)` for a user in no room. */
  function Enter(w: World, u: User, name: string): (r: World)
    requires Valid(w) && name in w.rooms && u !in w.roomOf && u.serial < w.logins
    ensures Valid(r)
    ensures r.rooms == w.rooms[name := Rooms.Join(w.rooms[name], u)]
    ensures r.roomOf == w.roomOf[u := name] && u in r.rooms[name].users
    ensures r.accounts == w.accounts && r.away == w.away
  {
    var room := Rooms.Join(w.rooms[name], u);
    assert u !in w.rooms[name].users;
    EnteredLinked(w, u, name, room);
    w.(roomOf := w.roomOf[u := name], rooms := w.rooms[name := room])
  }

  /** Appending a user in no room to a room's roster, and recording that
      room as the user's, keeps the rooms linked up. */
  lemma EnteredLinked(w: World, u: User, name: string, room: Rooms.Room)
    requires Linked(w) && name in w.rooms && u !in w.roomOf && Rooms.Valid(room)
    requires room.users == w.rooms[name].users + [u]
    ensures Linked(w.(roomOf := w.roomOf[u := name], rooms := w.rooms[name := room]))
  {
    EnteredRoomsList(w, u, name, room);
    EnteredListsRoom(w, u, name, room);
  }

  lemma EnteredRoomsList(w: World, u: User, name: string, room: Rooms.Room)
    requires Linked(w) && name in w.rooms && u !in w.roomOf
    requires room.users == w.rooms[name].users + [u]
    ensures var r := w.(roomOf := w.roomOf[u := name], rooms := w.rooms[name := room]);
      forall v :: v in r.roomOf ==> r.roomOf[v] in r.rooms && v in r.rooms[r.roomOf[v]].users
  {
    var r := w.(roomOf := w.roomOf[u := name], rooms := w.rooms[name := room]);
    forall v | v in r.roomOf ensures r.roomOf[v] in r.rooms && v in r.rooms[r.roomOf[v]].users {
      if v != u {
        var m := w.roomOf[v];
        assert m in w.rooms && v in w.rooms[m].users;
        if m != name {
          assert r.rooms[m] == w.rooms[m];
        }
      }
    }
  }

  lemma EnteredListsRoom(w: World, u: User, name: string, room: Rooms.Room)
    requires Linked(w) && name in w.rooms && u !in w.roomOf
    requires room.users == w.rooms[name].users + [u]
    ensures var r := w.(roomOf := w.roomOf[u := name], rooms := w.rooms[name := room]);
      forall m, v :: m in r.rooms && v in r.rooms[m].users ==> v in r.roomOf && r.roomOf[v] == m
  {
    var r := w.(roomOf := w.roomOf[u := name], rooms := w.rooms[name := room]);
    forall m, v | m in r.rooms && v in r.rooms[m].users ensures v in r.roomOf && r.roomOf[v] == m {
      if m != name {
        assert r.rooms[m] == w.rooms[m];
        assert v in w.roomOf && w.roomOf[v] == m;
      } else if v != u {
        assert v in w.rooms[name].users;
      }
    }
  }

  /** The `disconnect` handler (`UserList.quit`): the user leaves its room
      and is forgotten. */
  function Disconnect(w: World, sid: Sid): (r: World)
    requires Valid(w)
    ensures Valid(r)
    ensures sid !in r.accounts && r.accounts == Lobby.Quit(w.accounts, sid)
    ensures sid !in w.accounts ==> r == w
    ensures sid in w.accounts ==>
      var u := w.accounts[sid];
      u !in r.roomOf && r.rooms.Keys == w.rooms.Keys
      && (forall n :: n in r.rooms ==> u !in r.rooms[n].users)
      && r.roomOf == w.roomOf - {u} && r.away == w.away && r.logins == w.logins
      && (u in w.roomOf ==> r.rooms == w.rooms[w.roomOf[u] := Rooms.Part(w.rooms[w.roomOf[u]], u)])
      && (u !in w.roomOf ==> r.rooms == w.rooms)
  {
    if sid !in w.accounts then w
    else
      var left := Leave(w, w.accounts[sid]);
      ValidIgnoresAccounts(left, Lobby.Quit(w.accounts, sid));
      left.(accounts := Lobby.Quit(w.accounts, sid))
  }

  /** Who is logged in plays no part in the world's consistency, as long as
      the logins are numbered. */
  lemma ValidIgnoresAccounts(w: World, accounts: Lobby.Accounts)
    requires Valid(w) && forall s :: s in accounts ==> accounts[s].serial < w.logins
    ensures Valid(w.(accounts := accounts))
  {
    var r := w.(accounts := accounts);
    assert r.rooms == w.rooms && r.roomOf == w.roomOf;
  }

  lemma ValidIgnoresAway(w: World, away: set<User>)
    requires Valid(w) && forall u :: u in away ==> u.serial < w.logins
    ensures Valid(w.(away := away))
  {
    var r := w.(away := away);
    assert r.rooms == w.rooms && r.roomOf == w.roomOf;
  }

  /** Parting removes that user only. */
  lemma PartKeepsOthers(room: Rooms.Room, u: User)
    requires Rooms.Valid(room)
    ensures forall v :: v in Rooms.Part(room, u).users <==> v in room.users && v != u
  {
    var r := Rooms.Part(room, u);
    forall v ensures v in r.users <==> v in room.users && v != u {
      assert v in r.users <==> v in multiset(r.users);
      assert v in room.users <==> v in multiset(room.users);
    }
  }

  /** The `join` handler: an unknown room is answered with an alert; the
      user's own room changes nothing; otherwise the user leaves its room,
      if any, and joins the named one. Anyone not logged in is ignored. */
  function Join(w: World, sid: Sid, name: string): (r: Reply)
    requires Valid(w)
    ensures Valid(r.world)
    ensures sid !in w.accounts ==> r == Reply(w, None)
    ensures sid in w.accounts && name !in w.rooms ==> r == Reply(w, Some(NoSuchRoom))
    ensures sid in w.accounts && name in w.rooms ==>
      var u := w.accounts[sid];
      r.alert == None && r.world.accounts == w.accounts && r.world.away == w.away
      && u in r.world.roomOf && r.world.roomOf[u] == name && u in r.world.rooms[name].users
      && (forall n :: n in r.world.rooms && n != name ==> u !in r.world.rooms[n].users)
      && (u !in w.roomOf ==> r.world.rooms == w.rooms[name := Rooms.Join(w.rooms[name], u)])
    ensures sid in w.accounts && name in w.rooms && w.accounts[sid] in w.roomOf && w.roomOf[w.accounts[sid]] != name ==>
      var u, from := w.accounts[sid], w.roomOf[w.accounts[sid]];
      r.world.rooms == w.rooms[from := Rooms.Part(w.rooms[from], u)][name := Rooms.Join(w.rooms[name], u)]
    ensures sid in w.accounts && name in w.rooms ==> r.world.roomOf == w.roomOf[w.accounts[sid] := name]
    ensures r.world.logins == w.logins
  {
    if sid !in w.accounts then Reply(w, None)
    else if name !in w.rooms then Reply(w, Some(NoSuchRoom))
    else
      var u := w.accounts[sid];
      if u in w.roomOf && w.roomOf[u] == name then Reply(w, None)
      else Reply(Move(w, u, name), None)
  }

  /** The user leaves its room, if any, and enters the named one; a user
      who was in no room is appended to that room's roster. */
  function Move(w: World, u: User, name: string): (r: World)
    requires Valid(w) && name in w.rooms && u.serial < w.logins
    requires !(u in w.roomOf && w.roomOf[u] == name)
    ensures Valid(r) && r.accounts == w.accounts && r.away == w.away && r.logins == w.logins
    ensures u in r.roomOf && r.roomOf[u] == name && u in r.rooms[name].users
    ensures forall n :: n in r.rooms && n != name ==> u !in r.rooms[n].users
    ensures u !in w.roomOf ==> r.rooms == w.rooms[name := Rooms.Join(w.rooms[name], u)]
    ensures u in w.roomOf ==>
      r.rooms == w.rooms[w.roomOf[u] := Rooms.Part(w.rooms[w.roomOf[u]], u)][name := Rooms.Join(w.rooms[name], u)]
    ensures r.roomOf == w.roomOf[u := name]
  {
    var left := Leave(w, u);
    assert u !in w.roomOf ==> left == w && u !in w.rooms[name].users;
    assert left.rooms[name] == w.rooms[name];
    RemoveThenSet(w.roomOf, u, name);
    Enter(left, u, name)
  }

  /** Forgetting a key and then setting it is setting it. */
  lemma RemoveThenSet<K, V>(m: map<K, V>, k: K, v: V)
    ensures (m - {k})[k := v] == m[k := v]
  {
  }

  /** Joining the room one is already in is a no-op. */
  lemma RejoinIsNoop(w: World, sid: Sid)
    requires Valid(w) && sid in w.accounts && w.accounts[sid] in w.roomOf
    ensures Join(w, sid, w.roomOf[w.accounts[sid]]) == Reply(w, None)
  {
  }

  /** Every login makes a new user, even on a connection that logged in
      under the same name before: joining then appends it to the roster,
      next to the earlier login's user if that one is still listed. */
  lemma LoginThenJoinAppends(w: World, sid: Sid, name: string, n: string)
    requires Valid(w) && n in w.rooms
    requires ValidName(name) && !Lobby.NameTaken(w.accounts, name)
    ensures var u := User(sid, name, w.logins);
      var w2 := Join(Login(w, sid, name).world, sid, n).world;
      && w2.rooms[n].users == w.rooms[n].users + [u]
      && w2.rooms[n].state == w.rooms[n].state && w2.rooms[n].params == w.rooms[n].params
      && w2.rooms == w.rooms[n := w2.rooms[n]] && w2.roomOf == w.roomOf[u := n]
      && w2.accounts == w.accounts[sid := u] && w2.logins == w.logins + 1 && w2.away == w.away
  {
    var u := User(sid, name, w.logins);
    var w1 := Login(w, sid, name).world;
    assert w1 == w.(accounts := w.accounts[sid := u], logins := w.logins + 1);
    assert u !in w1.roomOf && u !in w1.rooms[n].users;
    Rooms.JoinKeepsParams(w1.rooms[n], u);
  }

  /** Logging in as `a`, joining, renaming the connection to `b` and back
      to `a`, and joining again leaves two users named `a` in the room: the
      first one was never parted. */
  lemma ReloginKeepsEarlierUser(w: World, sid: Sid, a: string, b: string, n: string)
    requires Valid(w) && w.accounts == map[] && n in w.rooms
    requires ValidName(a) && ValidName(b) && LowerStr(a) != LowerStr(b)
    ensures var w2 := Join(Login(w, sid, a).world, sid, n).world;
      var w3 := Login(Login(w2, sid, b).world, sid, a).world;
      Join(w3, sid, n).world.rooms[n].users == w.rooms[n].users + [User(sid, a, w.logins), User(sid, a, w.logins + 2)]
  {
    LoginThenJoinAppends(w, sid, a, n);
    var w2 := Join(Login(w, sid, a).world, sid, n).world;
    RenameAndBackJoins(w2, sid, a, b, n, w.logins);
    AppendTwo(w.rooms[n].users, User(sid, a, w.logins), User(sid, a, w.logins + 2));
  }

  /** Renaming the only connection from `a` to `b` and back, then joining,
      appends the third login's user. */
  lemma RenameAndBackJoins(w: World, sid: Sid, a: string, b: string, n: string, serial: nat)
    requires Valid(w) && w.accounts == map[sid := User(sid, a, serial)] && n in w.rooms
    requires ValidName(a) && ValidName(b) && LowerStr(a) != LowerStr(b)
    ensures var w3 := Login(Login(w, sid, b).world, sid, a).world;
      Join(w3, sid, n).world.rooms[n].users == w.rooms[n].users + [User(sid, a, w.logins + 1)]
  {
    RenameOnly(w, sid, a, b, serial);
    var w3 := Login(w, sid, b).world;
    OnlyNameTaken(w3.accounts, sid, b, a);
    LoginThenJoinAppends(w3, sid, a, n);
  }

  /** Renaming the only connection makes a new user under the new name. */
  lemma RenameOnly(w: World, sid: Sid, a: string, b: string, serial: nat)
    requires Valid(w) && w.accounts == map[sid := User(sid, a, serial)]
    requires ValidName(b) && LowerStr(a) != LowerStr(b)
    ensures Login(w, sid, b).world == w.(accounts := map[sid := User(sid, b, w.logins)], logins := w.logins + 1)
  {
    OnlyNameTaken(w.accounts, sid, a, b);
  }

  lemma AppendTwo<T>(xs: seq<T>, p: T, q: T)
    ensures (xs + [p]) + [q] == xs + [p, q]
  {
  }

  /** With one connection logged in, only a name equal to its own up to
      case is taken. */
  lemma OnlyNameTaken(accounts: Lobby.Accounts, sid: Sid, held: string, name: string)
    requires accounts.Keys == {sid} && accounts[sid].name == held && LowerStr(held) != LowerStr(name)
    ensures !Lobby.NameTaken(accounts, name)
  {
  }

  /** What a round needs from outside for one request: the clock, the next
      phrase and the shuffled roster of the user's room. */
  datatype Inputs = Inputs(now: int, phrase: string, shuffled: seq<User>)

  function EnvOf(w: World, inp: Inputs): Rooms.Env {
    Rooms.Env(inp.now, w.away, inp.phrase, inp.shuffled)
  }

  /** The user of a logged-in connection that is in a room, if there is one. */
  predicate InRoom(w: World, sid: Sid) {
    sid in w.accounts && w.accounts[sid] in w.roomOf
  }

  /** The shuffled roster is a reordering of the roster of the room the
      request goes to. */
  predicate FitsRoom(w: World, n: string, inp: Inputs) {
    n in w.rooms && Rooms.Fits(w.rooms[n], EnvOf(w, inp))
  }

  /** Replacing a room by a reordering of its roster keeps the world sound. */
  lemma UpdateRoom(w: World, n: string, room: Rooms.Room)
    requires Valid(w) && n in w.rooms && Rooms.Valid(room)
    requires multiset(room.users) == multiset(w.rooms[n].users)
    ensures Valid(w.(rooms := w.rooms[n := room]))
  {
    forall u ensures u in room.users <==> u in w.rooms[n].users {
      assert u in room.users <==> u in multiset(room.users);
      assert u in w.rooms[n].users <==> u in multiset(w.rooms[n].users);
    }
  }

  /** The `say` handler: ignored unless the user is logged in and in a room;
      a message of white space only is dropped; anything else goes to the
      room. */
  function Say(w: World, sid: Sid, msg: string, inp: Inputs): (r: World)
    requires Valid(w)
    requires InRoom(w, sid) ==> FitsRoom(w, w.roomOf[w.accounts[sid]], inp)
    ensures Valid(r)
    ensures !InRoom(w, sid) || AllSpace(msg) ==> r == w
    ensures InRoom(w, sid) && !AllSpace(msg) ==>
      var u := w.accounts[sid];
      var n := w.roomOf[u];
      r == w.(rooms := w.rooms[n := Rooms.Say(w.rooms[n], u, msg, EnvOf(w, inp))])
  {
    StripEmptyIffAllSpace(msg);
    if !InRoom(w, sid) || |Strip(msg)| == 0 then w
    else
      var u := w.accounts[sid];
      var n := w.roomOf[u];
      var room := Rooms.Say(w.rooms[n], u, msg, EnvOf(w, inp));
      UpdateRoom(w, n, room);
      w.(rooms := w.rooms[n := room])
  }

  /** The `request_skip` handler. */
  function Skip(w: World, sid: Sid, inp: Inputs): (r: World)
    requires Valid(w)
    requires InRoom(w, sid) ==> FitsRoom(w, w.roomOf[w.accounts[sid]], inp)
    ensures Valid(r)
    ensures !InRoom(w, sid) ==> r == w
    ensures InRoom(w, sid) ==>
      var u := w.accounts[sid];
      var n := w.roomOf[u];
      r == w.(rooms := w.rooms[n := Rooms.Skip(w.rooms[n], u, EnvOf(w, inp))])
  {
    if !InRoom(w, sid) then w
    else
      var u := w.accounts[sid];
      var n := w.roomOf[u];
      var room := Rooms.Skip(w.rooms[n], u, EnvOf(w, inp));
      UpdateRoom(w, n, room);
      w.(rooms := w.rooms[n := room])
  }

  /** The `request_hint` handler. */
  function Hint(w: World, sid: Sid): (r: World)
    requires Valid(w)
    ensures Valid(r)
    ensures !InRoom(w, sid) ==> r == w
    ensures InRoom(w, sid) ==>
      var u := w.accounts[sid];
      var n := w.roomOf[u];
      r == w.(rooms := w.rooms[n := Rooms.Hint(w.rooms[n], u)])
  {
    if !InRoom(w, sid) then w
    else
      var u := w.accounts[sid];
      var n := w.roomOf[u];
      var room := Rooms.Hint(w.rooms[n], u);
      UpdateRoom(w, n, room);
      w.(rooms := w.rooms[n := room])
  }

  /** The `set_away` handler: only the user's flag changes. */
  function SetAway(w: World, sid: Sid, away: bool): (r: World)
    requires Valid(w)
    ensures Valid(r)
    ensures sid !in w.accounts ==> r == w
    ensures sid in w.accounts ==>
      r.accounts == w.accounts && r.roomOf == w.roomOf && r.rooms == w.rooms
      && (w.accounts[sid] in r.away <==> away)
      && (forall v :: v != w.accounts[sid] ==> (v in r.away <==> v in w.away))
  {
    if sid !in w.accounts then w
    else if away then w.(away := w.away + {w.accounts[sid]})
    else w.(away := w.away - {w.accounts[sid]})
  }

  /** One pass of the think loop over the named room; artists it finds idle
      become away. */
  function Think(w: World, n: string, inp: Inputs): (r: World)
    requires Valid(w) && FitsRoom(w, n, inp)
    ensures Valid(r)
    ensures r.accounts == w.accounts && r.roomOf == w.roomOf && r.rooms.Keys == w.rooms.Keys
    ensures var t := Rooms.Think(w.rooms[n], EnvOf(w, inp));
      r.rooms == w.rooms[n := t.room] && r.away == w.away + t.markedAway
    ensures r.logins == w.logins
  {
    var t := Rooms.Think(w.rooms[n], EnvOf(w, inp));
    UpdateRoomMarkAway(w, n, t.room, t.markedAway);
    w.(rooms := w.rooms[n := t.room], away := w.away + t.markedAway)
  }

  /** Replacing a room by a reordering of its roster and marking users away
      keeps the world sound. */
  lemma UpdateRoomMarkAway(w: World, n: string, room: Rooms.Room, marked: set<User>)
    requires Valid(w) && n in w.rooms && Rooms.Valid(room)
    requires multiset(room.users) == multiset(w.rooms[n].users)
    requires forall u :: u in marked ==> u in w.rooms[n].users
    ensures Valid(w.(rooms := w.rooms[n := room], away := w.away + marked))
  {
    UpdateRoom(w, n, room);
    ValidIgnoresAway(w.(rooms := w.rooms[n := room]), w.away + marked);
  }

  /** One pass of the think loop over the named room, with the phrase of a
      round it starts asked of a chooser built over `chooser`. An exception
      from the chooser escapes the pass and ends the loop. */
  function PollWith(w: World, n: string, inp: Inputs, chooser: Util.ChooserInput, pick: nat): (r: Result<World, Util.ChooseError>)
    requires Valid(w) && FitsRoom(w, n, inp)
    ensures r.Err? <==> Rooms.DrawsPhrase(w.rooms[n], EnvOf(w, inp)) && Util.Next(chooser, pick).Err?
    ensures r.Err? ==> r.error == Util.Next(chooser, pick).error
    ensures r.Ok? ==> Valid(r.value) && r.value.accounts == w.accounts && r.value.roomOf == w.roomOf
    ensures r.Ok? ==> var t := Rooms.Poll(w.rooms[n], EnvOf(w, inp), chooser, pick).value;
      r.value.rooms == w.rooms[n := t.room] && r.value.away == w.away + t.markedAway
  {
    if !Rooms.DrawsPhrase(w.rooms[n], EnvOf(w, inp)) then Ok(Think(w, n, inp))
    else match Util.Next(chooser, pick)
      case Err(e) => Err(e)
      case Ok(phrase) => Ok(Think(w, n, inp.(phrase := phrase)))
  }

  /** pysketchd.py's think loop as written: each room's `PhraseChooser` is
      built over the bare list of stripped lines of words.txt. */
  function PollAsWritten(w: World, n: string, inp: Inputs, lines: seq<string>, pick: nat): (r: Result<World, Util.ChooseError>)
    requires Valid(w) && FitsRoom(w, n, inp)
    ensures r.Err? <==> Rooms.DrawsPhrase(w.rooms[n], EnvOf(w, inp))
    ensures r.Err? ==> r.error == Util.AttributeError
    ensures r.Ok? ==> r.value == Think(w, n, inp)
  {
    var r := PollWith(w, n, inp, Util.OverBareList(lines), pick);
    if r.Err? then r
    else
      Rooms.PhraseUnusedWithoutNewRound(w.rooms[n], EnvOf(w, inp), inp.phrase);
      r
  }

  /** As written, no pass that survives ever takes a waiting room out of
      waiting: the only pass that would start its first round raises. */
  lemma LegacyRoomNeverStarts(w: World, n: string, inp: Inputs, lines: seq<string>, pick: nat)
    requires Valid(w) && FitsRoom(w, n, inp) && w.rooms[n].state == Rooms.Waiting
    requires PollAsWritten(w, n, inp, lines, pick).Ok?
    ensures PollAsWritten(w, n, inp, lines, pick).value.rooms[n] == w.rooms[n]
  {
  }

  /** Two users logging in to a fresh server and joining a waiting room
      that two players fill: the next pass of the loop as written raises
      `AttributeError`. `Initial()` with its default room is such a
      server. */
  lemma TwoPlayersKillLegacyLoop(w: World, sid1: Sid, sid2: Sid, a: string, b: string, n: string,
                                 now: int, lines: seq<string>, pick: nat)
    requires Valid(w) && w.accounts == map[] && w.away == {} && n in w.rooms
    requires w.rooms[n].users == [] && w.rooms[n].state == Rooms.Waiting && w.rooms[n].params.minPlayerCount == 2
    requires ValidName(a) && ValidName(b) && LowerStr(a) != LowerStr(b) && sid1 != sid2
    ensures var w1 := Join(Login(w, sid1, a).world, sid1, n).world;
      var w2 := Join(Login(w1, sid2, b).world, sid2, n).world;
      var inp := Inputs(now, "", w2.rooms[n].users);
      FitsRoom(w2, n, inp) && PollAsWritten(w2, n, inp, lines, pick) == Err(Util.AttributeError)
  {
    TwoLoginsJoin(w, sid1, sid2, a, b, n);
    TwoLoginsKeepRoom(w, sid1, sid2, a, b, n);
    var w1 := Join(Login(w, sid1, a).world, sid1, n).world;
    var w2 := Join(Login(w1, sid2, b).world, sid2, n).world;
    FilledRoomDrawsPhrase(w2, n, Inputs(now, "", w2.rooms[n].users));
  }

  /** Two logins under different names, each joining the same empty room,
      leave two users in it. */
  lemma TwoLoginsJoin(w: World, sid1: Sid, sid2: Sid, a: string, b: string, n: string)
    requires Valid(w) && w.accounts == map[] && n in w.rooms
    requires ValidName(a) && ValidName(b) && LowerStr(a) != LowerStr(b)
    ensures var w1 := Join(Login(w, sid1, a).world, sid1, n).world;
      var w2 := Join(Login(w1, sid2, b).world, sid2, n).world;
      w2.rooms[n].users == w.rooms[n].users + [User(sid1, a, w.logins), User(sid2, b, w.logins + 1)]
  {
    LoginThenJoinAppends(w, sid1, a, n);
    var w1 := Join(Login(w, sid1, a).world, sid1, n).world;
    SecondLoginJoins(w1, sid1, sid2, a, b, n, w.logins);
    AppendTwo(w.rooms[n].users, User(sid1, a, w.logins), User(sid2, b, w.logins + 1));
  }

  /** The same two logins and joins leave the away flags and the room's
      state and settings alone. */
  lemma TwoLoginsKeepRoom(w: World, sid1: Sid, sid2: Sid, a: string, b: string, n: string)
    requires Valid(w) && w.accounts == map[] && n in w.rooms
    requires ValidName(a) && ValidName(b) && LowerStr(a) != LowerStr(b)
    ensures var w1 := Join(Login(w, sid1, a).world, sid1, n).world;
      var w2 := Join(Login(w1, sid2, b).world, sid2, n).world;
      w2.away == w.away && w2.rooms[n].state == w.rooms[n].state && w2.rooms[n].params == w.rooms[n].params
  {
    LoginThenJoinAppends(w, sid1, a, n);
    var w1 := Join(Login(w, sid1, a).world, sid1, n).world;
    SecondLoginJoins(w1, sid1, sid2, a, b, n, w.logins);
  }

  /** A second login under another name, joining the same room, is
      appended after the first. */
  lemma SecondLoginJoins(w: World, sid1: Sid, sid2: Sid, a: string, b: string, n: string, serial: nat)
    requires Valid(w) && w.accounts == map[sid1 := User(sid1, a, serial)] && n in w.rooms
    requires ValidName(b) && LowerStr(a) != LowerStr(b)
    ensures var w2 := Join(Login(w, sid2, b).world, sid2, n).world;
      && w2.rooms[n].users == w.rooms[n].users + [User(sid2, b, w.logins)]
      && w2.away == w.away && w2.rooms[n].state == w.rooms[n].state && w2.rooms[n].params == w.rooms[n].params
  {
    OnlyNameTaken(w.accounts, sid1, a, b);
    LoginThenJoinAppends(w, sid2, b, n);
  }

  /** A waiting room holding two users, nobody away, with a minimum of two
      players starts a round on the next pass. */
  lemma FilledRoomDrawsPhrase(w: World, n: string, inp: Inputs)
    requires Valid(w) && n in w.rooms && w.away == {} && inp.shuffled == w.rooms[n].users
    requires |w.rooms[n].users| == 2 && w.rooms[n].state == Rooms.Waiting && w.rooms[n].params.minPlayerCount == 2
    ensures FitsRoom(w, n, inp) && Rooms.DrawsPhrase(w.rooms[n], EnvOf(w, inp))
  {
    var users := w.rooms[n].users;
    assert users[0] !in w.away;
    assert Rooms.CountActive(users, w.away) >= 1;
  }

  /** The evidently intended set-up: the chooser is built over a `WordList`
      holding the stripped lines. */
  function Poll(w: World, n: string, inp: Inputs, lines: seq<string>, pick: nat): (r: Result<World, Util.ChooseError>)
    requires Valid(w) && FitsRoom(w, n, inp)
    ensures r.Err? <==> Rooms.DrawsPhrase(w.rooms[n], EnvOf(w, inp)) && |lines| == 0
    ensures r.Err? ==> r.error == Util.IndexError
    ensures r.Ok? ==> Valid(r.value) && r.value.accounts == w.accounts && r.value.roomOf == w.roomOf
  {
    PollWith(w, n, inp, Util.OverWordList(Util.WordList(DefaultRoom, lines)), pick)
  }

  /** With that set-up and a non-empty word list, a waiting room with enough
      players starts a round with a phrase from the list. */
  lemma PollStartsRound(w: World, n: string, inp: Inputs, lines: seq<string>, pick: nat)
    requires Valid(w) && FitsRoom(w, n, inp) && |lines| > 0
    requires w.rooms[n].state == Rooms.Waiting && Rooms.HasEnoughPlayers(w.rooms[n], w.away)
    ensures Poll(w, n, inp, lines, pick).Ok?
    ensures var room := Poll(w, n, inp, lines, pick).value.rooms[n];
      room.state.Playing? && room.state.rs.phrase in lines
  {
  }
}
