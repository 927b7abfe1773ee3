/** A game room and its state machine (`Room`, `WaitForPlayersState`,
    `RoundState` and `ScoreState` in pysketch/game.py; pysketchd.py's copies
    differ in what they send and in what their phrase chooser is built over,
    which `Poll` takes as a parameter). Every step is a pure function
    of the room and of an `Env` that carries what the Python code reads from
    outside: the clock, the users' away flags, the phrase the phrase chooser
    would hand out if a round starts during the step, and the order
    `random.shuffle` would leave the roster in if the room is reset. */
module Rooms {
  import opened Outcomes
  import opened Users
  import opened Text
  import Util
  import Chat
  import Strokes
  import Selection
  import Scores

  /** The keyword arguments of `Room.__init__`. */
  datatype Params = Params(
    roundLimit: int,
    roundTime: int,
    rushPhaseTime: int,
    scoreTime: int,
    artistCount: int,
    minPlayerCount: int,
    timeFudge: int,
    drawInactivityTime: int)

  /** The defaults of pysketch/game.py. */
  const GameDefaults: Params := Params(20, 150, 20, 10, 1, 2, 0, 30)

  /** The fixed settings of pysketchd.py's `Room`. */
  const LegacyDefaults: Params := Params(1, 5, 20, 500, 1, 2, 0, 30)

  /** `RoundState.total_hints`. */
  const TotalHints: int := 2

  /** The fields of a `RoundState`. */
  datatype RoundState = RoundState(
    drawing: Strokes.Drawing,
    startTime: int,
    endTime: int,
    phrase: string,
    guessers: set<User>,
    rushPhase: bool,
    startedDrawing: bool,
    hintsRemaining: int,
    currentHint: Option<string>,
    canSkip: bool,
    artists: seq<User>)

  /** The room's one active state; `Scoring` keeps the scores it snapshotted
      before the reset. */
  datatype State =
    | Waiting
    | Playing(rs: RoundState)
    | Scoring(final: Scores.Table, endTime: int)

  datatype Room = Room(
    name: string,
    round: int,
    params: Params,
    messages: seq<Chat.Entry>,
    users: seq<User>,
    scores: Scores.Table,
    state: State)

  /** What a step reads from outside the room. */
  datatype Env = Env(now: int, away: set<User>, phrase: string, shuffled: seq<User>)

  /** `random.shuffle` only reorders the roster. */
  predicate Fits(room: Room, env: Env) {
    multiset(env.shuffled) == multiset(room.users)
  }

  /** A round's own invariant: a sound drawing, the hint counter in range,
      artists drawn from the roster without repeats, skips and hints
      switched off once somebody guessed, and no rush phase before that. */
  predicate RoundValid(rs: RoundState, users: seq<User>) {
    Strokes.Valid(rs.drawing)
    && 0 <= rs.hintsRemaining <= TotalHints
    && (forall a :: a in rs.artists ==> a in users)
    && Distinct(rs.artists)
    && (rs.guessers != {} ==> !rs.canSkip && rs.hintsRemaining == 0)
    && (rs.guessers == {} ==> !rs.rushPhase)
  }

  /** The room invariant every step keeps. */
  predicate Valid(room: Room) {
    Distinct(room.users)
    && Chat.Valid(room.messages)
    && room.params.minPlayerCount > 1
    && room.round >= 1
    && (room.state.Playing? ==> RoundValid(room.state.rs, room.users))
  }

  datatype RoomError = MinPlayerCountTooSmall

  /** `Room.__init__`: its assertion rejects a minimum of one player or
      fewer; a new room waits with an empty roster at round 1. */
  function NewRoom(name: string, params: Params): (r: Result<Room, RoomError>)
    ensures r.Err? <==> params.minPlayerCount <= 1
    ensures r.Ok? ==> Valid(r.value) && r.value.state == Waiting && r.value.users == []
                      && r.value.round == 1 && r.value.scores == map[] && r.value.messages == []
  {
    if params.minPlayerCount <= 1 then Err(MinPlayerCountTooSmall)
    else Ok(Room(name, 1, params, [], [], map[], Waiting))
  }

  /** `count_active_users`. */
  function CountActive(users: seq<User>, away: set<User>): (n: nat)
    ensures n <= |users|
    ensures n == 0 <==> forall i :: 0 <= i < |users| ==> users[i] in away
  {
    if |users| == 0 then 0 else (if users[0] in away then 0 else 1) + CountActive(users[1..], away)
  }

  /** `has_enough_players`: at least one user present and at least the
      minimum number on the roster, away or not. */
  predicate HasEnoughPlayers(room: Room, away: set<User>) {
    CountActive(room.users, away) >= 1 && |room.users| >= room.params.minPlayerCount
  }

  /** `has_everyone_guessed`: the roster minus guessers minus artists is empty. */
  predicate EveryoneGuessed(users: seq<User>, rs: RoundState) {
    (set u | u in users) - rs.guessers - (set a | a in rs.artists) == {}
  }

  /** The set difference is empty exactly when each roster user guessed or draws. */
  lemma EveryoneGuessedMeans(users: seq<User>, rs: RoundState)
    ensures EveryoneGuessed(users, rs) <==> forall u :: u in users ==> u in rs.guessers || u in rs.artists
  {
    if EveryoneGuessed(users, rs) {
      forall u | u in users ensures u in rs.guessers || u in rs.artists {
        assert u in (set u | u in users);
        assert u !in (set u | u in users) - rs.guessers - (set a | a in rs.artists);
        assert u in rs.artists <==> u in (set a | a in rs.artists);
      }
    } else {
      var u :| u in (set u | u in users) - rs.guessers - (set a | a in rs.artists);
      assert u in users && u !in rs.guessers && u !in rs.artists;
    }
  }

  /** `has_remaining_time`. */
  predicate HasRemainingTime(room: Room, rs: RoundState, now: int) {
    now < rs.endTime + room.params.timeFudge
  }

  /** Constructing a `RoundState` and transitioning to it: a fresh drawing,
      the round timer started now, the next phrase, and artists chosen from
      the front of the roster, which is reordered as the selection leaves it. */
  function StartRound(room: Room, env: Env): (r: Room)
    requires Valid(room)
    ensures Valid(r) && r.state.Playing?
    ensures r.round == room.round && r.scores == room.scores && r.messages == room.messages
    ensures multiset(r.users) == multiset(room.users)
    ensures var rs := r.state.rs;
      rs.phrase == env.phrase && rs.startTime == env.now && rs.endTime == env.now + room.params.roundTime
      && rs.guessers == {} && !rs.rushPhase && !rs.startedDrawing && rs.canSkip
      && rs.hintsRemaining == TotalHints && rs.currentHint == None
      && Strokes.Replay(rs.drawing) == []
      && (forall a :: a in rs.artists ==> a !in env.away)
      && |rs.artists| <= (if room.params.artistCount < 0 then 0 else room.params.artistCount)
      && |rs.artists| <= |r.users| && rs.artists == r.users[|r.users| - |rs.artists|..]
  {
    var c := Selection.Choose(room.users, env.away, room.params.artistCount);
    Selection.ChosenArtists(room.users, env.away, room.params.artistCount);
    PermutationKeepsDistinct(room.users, c.roster);
    SuffixFacts(c.roster, |c.roster| - |c.artists|);
    var rs := RoundState(Strokes.Empty(), env.now, env.now + room.params.roundTime, env.phrase,
                         {}, false, false, TotalHints, None, true, c.artists);
    room.(users := c.roster, state := Playing(rs))
  }

  /** A suffix of a list without repeats has none either, and its elements
      are elements of the list. */
  lemma SuffixFacts(s: seq<User>, k: nat)
    requires k <= |s| && Distinct(s)
    ensures Distinct(s[k..]) && forall u :: u in s[k..] ==> u in s
  {
    assert forall i :: 0 <= i < |s| - k ==> s[k..][i] == s[k + i];
  }

  /** `Room.reset`: the roster shuffled, the scores cleared, round 1. */
  function Reset(room: Room, env: Env): (r: Room)
    requires Valid(room) && Fits(room, env) && !room.state.Playing?
    ensures Valid(r)
    ensures multiset(r.users) == multiset(room.users)
    ensures r.round == 1 && r.scores == map[]
    ensures forall n :: Scores.Get(r.scores, n) == 0
    ensures r.state == room.state && r.messages == room.messages && r.params == room.params
  {
    PermutationKeepsDistinct(room.users, env.shuffled);
    room.(users := env.shuffled, scores := map[], round := 1)
  }

  /** `next_state`: the next round while the limit allows, otherwise the
      score board, which keeps the scores as they were before its reset. */
  function NextState(room: Room, env: Env): (r: Room)
    requires Valid(room) && Fits(room, env)
    ensures Valid(r)
    ensures multiset(r.users) == multiset(room.users)
    ensures r.state.Playing? <==> room.round + 1 <= room.params.roundLimit
    ensures r.state.Playing? ==> r.round == room.round + 1 && r.scores == room.scores
                                 && r.state.rs.phrase == env.phrase && r.state.rs.guessers == {}
    ensures !r.state.Playing? ==> r.state == Scoring(room.scores, env.now + room.params.scoreTime)
                                  && r.round == 1 && r.scores == map[]
    ensures r.messages == room.messages
  {
    if room.round + 1 <= room.params.roundLimit then
      StartRound(room.(round := room.round + 1), env)
    else
      Reset(room.(state := Scoring(room.scores, env.now + room.params.scoreTime)), env)
  }

  /** `start_rush_phase`: the timer restarts now with the rush length. */
  function StartRush(rs: RoundState, params: Params, now: int): (r: RoundState)
    ensures r.rushPhase && r.startTime == now && r.endTime == now + params.rushPhaseTime
    ensures r.(rushPhase := rs.rushPhase, startTime := rs.startTime, endTime := rs.endTime) == rs
  {
    rs.(rushPhase := true, startTime := now, endTime := now + params.rushPhaseTime)
  }

  /** The score arithmetic of `add_guesser` for a guesser who is the
      (k+1)-th: every artist gains the artist bonus, the guesser the
      guesser award, and the names sent in the score broadcast become keys. */
  function Award(scores: Scores.Table, artists: seq<User>, user: User, k: nat): (r: Scores.Table)
    ensures r.Keys == scores.Keys + Scores.NameSet(artists) + {user.name}
    ensures forall n :: (Scores.Get(r, n) == Scores.Get(scores, n)
                          + Scores.ArtistBonus(k) * Scores.NameCount(artists, n)
                          + (if n == user.name then Scores.GuesserAward(k) else 0))
  {
    var s1 := Scores.AddEach(scores, artists, Scores.ArtistBonus(k));
    var s2 := Scores.Add(s1, user.name, Scores.GuesserAward(k));
    Scores.TouchEach(s2, artists)
  }

  /** `add_guesser`: nothing for a repeat guesser; otherwise the awards,
      the guesser recorded, skips and hints switched off, and then either
      the round ends (everyone on the roster guessed or draws) or the rush
      phase starts, unless it already runs. */
  function AddGuesser(room: Room, user: User, env: Env): (r: Room)
    requires Valid(room) && Fits(room, env) && room.state.Playing?
    ensures Valid(r) && multiset(r.users) == multiset(room.users)
    ensures user in room.state.rs.guessers ==> r == room
    ensures user !in room.state.rs.guessers ==>
      var rs := room.state.rs;
      var k := |rs.guessers|;
      var credited := rs.(guessers := rs.guessers + {user}, canSkip := false, hintsRemaining := 0);
      var scores := Award(room.scores, rs.artists, user, k);
      if EveryoneGuessed(room.users, credited) then
        r == NextState(room.(scores := scores, state := Playing(credited)), env)
      else
        r.users == room.users && r.scores == scores && r.messages == room.messages
        && r.state == Playing(if rs.rushPhase then credited else StartRush(credited, room.params, env.now))
  {
    var rs := room.state.rs;
    if user in rs.guessers then room
    else
      var k := |rs.guessers|;
      var credited := rs.(guessers := rs.guessers + {user}, canSkip := false, hintsRemaining := 0);
      var room1 := room.(scores := Award(room.scores, rs.artists, user, k), state := Playing(credited));
      if EveryoneGuessed(room1.users, credited) then NextState(room1, env)
      else if !credited.rushPhase then room1.(state := Playing(StartRush(credited, room.params, env.now)))
      else room1
  }

  /** `hint`: only an artist, and only while hints remain. The hint reveals
      one more letter per request (counted before the decrement) and costs
      every artist two points. */
  function Hint(room: Room, user: User): (r: Room)
    requires Valid(room)
    ensures Valid(r)
    ensures r.users == room.users && r.messages == room.messages && r.round == room.round
    ensures !(room.state.Playing? && user in room.state.rs.artists && room.state.rs.hintsRemaining > 0) ==> r == room
    ensures room.state.Playing? && user in room.state.rs.artists && room.state.rs.hintsRemaining > 0 ==>
      var rs := room.state.rs;
      r.state.Playing?
      && r.state.rs == rs.(hintsRemaining := rs.hintsRemaining - 1,
                           currentHint := Some(Util.CreateHint(rs.phrase, TotalHints - rs.hintsRemaining + 1)))
      && (forall n :: Scores.Get(r.scores, n) == Scores.Get(room.scores, n) - 2 * Scores.NameCount(rs.artists, n))
  {
    match room.state
    case Playing(rs) =>
      if user in rs.artists && rs.hintsRemaining > 0 then
        var hint := Util.CreateHint(rs.phrase, TotalHints - rs.hintsRemaining + 1);
        var rs1 := rs.(hintsRemaining := rs.hintsRemaining - 1, currentHint := Some(hint));
        room.(scores := Scores.AddEach(room.scores, rs.artists, -2), state := Playing(rs1))
      else room
    case _ => room
  }

  /** How `RoundState.say` classifies a chat line. */
  datatype Verdict =
    | ArtistTalk   // artists may not guess; their line is chat
    | TooLate      // the phrase, after the timer (and fudge) ran out
    | Correct      // the phrase, in time
    | Close        // a long enough common prefix with the phrase
    | Miss         // anything else

  /** The guess test: the lower-cased phrase occurs in the lower-cased,
      stripped message. */
  predicate Matches(phrase: string, message: string) {
    Contains(LowerStr(Strip(message)), LowerStr(phrase))
  }

  /** A near miss: at least five leading characters in common with the
      phrase, and at least 30% of its length (`p >= 0.3 * n`, written in
      integers). */
  predicate IsClose(phrase: string, message: string) {
    var p := CommonPrefixLen(LowerStr(phrase), LowerStr(Strip(message)));
    p >= 5 && 10 * p >= 3 * |phrase|
  }

  function Judge(room: Room, rs: RoundState, user: User, message: string, now: int): (v: Verdict)
    ensures v == ArtistTalk <==> user in rs.artists
    ensures v == Correct <==> user !in rs.artists && Matches(rs.phrase, message) && now <= rs.endTime + room.params.timeFudge
    ensures v == TooLate <==> user !in rs.artists && Matches(rs.phrase, message) && now > rs.endTime + room.params.timeFudge
    ensures v == Close <==> user !in rs.artists && !Matches(rs.phrase, message) && IsClose(rs.phrase, message)
  {
    if user in rs.artists then ArtistTalk
    else if Matches(rs.phrase, message) then
      if now > rs.endTime + room.params.timeFudge then TooLate else Correct
    else if IsClose(rs.phrase, message) then Close
    else Miss
  }

  /** `Room.say`: a line that the state does not take as a guess goes into
      the chat log under the sender's name; a correct guess is scored; a
      near miss is only reported back to the sender. */
  function Say(room: Room, user: User, message: string, env: Env): (r: Room)
    requires Valid(room) && Fits(room, env)
    ensures Valid(r) && multiset(r.users) == multiset(room.users)
    ensures !room.state.Playing? ==>
      r == room.(messages := Chat.Append(room.messages, Chat.MakeEntry("chat", message, user.name)))
    ensures room.state.Playing? ==>
      var v := Judge(room, room.state.rs, user, message, env.now);
      (v == Correct ==> r == AddGuesser(room, user, env))
      && (v == Close ==> r == room)
      && (v in {ArtistTalk, TooLate, Miss} ==>
            r == room.(messages := Chat.Append(room.messages, Chat.MakeEntry("chat", message, user.name))))
  {
    var logged := room.(messages := Chat.Append(room.messages, Chat.MakeEntry("chat", message, user.name)));
    match room.state
    case Playing(rs) =>
      (match Judge(room, rs, user, message, env.now)
       case Correct => AddGuesser(room, user, env)
       case Close => room
       case _ => logged)
    case _ => logged
  }

  /** `RoundState.draw`: any user's stroke marks the round as drawn, but
      only an artist's reaches the drawing. */
  function Draw(room: Room, user: User, decoded: Option<seq<Strokes.Byte>>): (r: Room)
    requires Valid(room)
    ensures Valid(r)
    ensures !room.state.Playing? ==> r == room
    ensures room.state.Playing? ==>
      var rs := room.state.rs;
      r.state.Playing? && r.state.rs.startedDrawing
      && r.state.rs.drawing == (if user in rs.artists then Strokes.Draw(rs.drawing, user, decoded).drawing else rs.drawing)
      && r.state.rs.(startedDrawing := rs.startedDrawing, drawing := rs.drawing) == rs
      && r.(state := room.state) == room
  {
    match room.state
    case Playing(rs) =>
      var d := if user in rs.artists then Strokes.Draw(rs.drawing, user, decoded).drawing else rs.drawing;
      room.(state := Playing(rs.(startedDrawing := true, drawing := d)))
    case _ => room
  }

  /** `RoundState.skip`: an artist may end the round while skipping is
      allowed; it then moves on exactly as when the round ends. */
  function Skip(room: Room, user: User, env: Env): (r: Room)
    requires Valid(room) && Fits(room, env)
    ensures Valid(r) && multiset(r.users) == multiset(room.users)
    ensures room.state.Playing? && user in room.state.rs.artists && room.state.rs.canSkip ==> r == NextState(room, env)
    ensures !(room.state.Playing? && user in room.state.rs.artists && room.state.rs.canSkip) ==> r == room
  {
    match room.state
    case Playing(rs) => if user in rs.artists && rs.canSkip then NextState(room, env) else room
    case _ => room
  }

  /** `Room.part`: a member leaves the roster and, during a round, the
      artists; scores, log and state are kept. Anyone else: no change. */
  function Part(room: Room, user: User): (r: Room)
    requires Valid(room)
    ensures Valid(r)
    ensures user !in r.users
    ensures multiset(r.users) == multiset(room.users) - multiset{user}
    ensures r.users == Remove(room.users, user) && r.params == room.params && r.name == room.name
    ensures user !in room.users ==> r == room
    ensures r.scores == room.scores && r.messages == room.messages && r.round == room.round
    ensures room.state.Playing? <==> r.state.Playing?
    ensures room.state.Playing? ==> user !in r.state.rs.artists
                                    && r.state.rs == room.state.rs.(artists := Remove(room.state.rs.artists, user))
    ensures !room.state.Playing? ==> r.state == room.state
  {
    if user !in room.users then room
    else
      var users := Remove(room.users, user);
      RemoveFromDistinct(room.users, user);
      match room.state
      case Playing(rs) =>
        room.(users := users, state := Playing(PartRound(rs, room.users, user)))
      case _ => room.(users := users)
  }

  /** The round after `user` leaves the room: `user` is no artist any more. */
  function PartRound(rs: RoundState, users: seq<User>, user: User): (r: RoundState)
    requires Distinct(users) && RoundValid(rs, users)
    ensures RoundValid(r, Remove(users, user))
    ensures user !in r.artists
    ensures r == rs.(artists := Remove(rs.artists, user))
  {
    var artists := Remove(rs.artists, user);
    var rest := Remove(users, user);
    RemoveFromDistinct(users, user);
    RemoveFromDistinct(rs.artists, user);
    forall a | a in artists ensures a in rest {
      assert a in multiset(artists);
      assert a in rs.artists && a != user;
      assert a in multiset(rest);
    }
    rs.(artists := artists)
  }

  /** `Room.join`: a newcomer goes to the end of the roster; a member joining
      again changes nothing. No score changes, but the reads of
      `scores[name]` make names keys: the newcomer's when others were
      already there to be told, and during a round every member's. */
  function Join(room: Room, user: User): (r: Room)
    requires Valid(room)
    ensures Valid(r)
    ensures user in room.users ==> r == room
    ensures user !in room.users ==>
      r.users == room.users + [user] && r.state == room.state && r.messages == room.messages
      && r.round == room.round
      && (forall n :: Scores.Get(r.scores, n) == Scores.Get(room.scores, n))
      && (|room.users| > 0 ==> user.name in r.scores)
      && (room.state.Playing? ==> forall u :: u in r.users ==> u.name in r.scores)
      && (!room.state.Playing? && |room.users| == 0 ==> r.scores == room.scores)
  {
    if user in room.users then room
    else
      var s1 := if |room.users| > 0 then Scores.Touch(room.scores, user.name) else room.scores;
      var users := room.users + [user];
      var s2 := if room.state.Playing? then Scores.TouchEach(s1, users) else s1;
      assert forall u :: u in users ==> u.name in Scores.NameSet(users) by {
        forall u | u in users ensures u.name in Scores.NameSet(users) {
          var i :| 0 <= i < |users| && users[i] == u;
        }
      }
      room.(users := users, scores := s2)
  }
  /** Joining leaves the room's settings alone. */
  lemma JoinKeepsParams(room: Room, user: User)
    requires Valid(room)
    ensures Join(room, user).params == room.params
  {
  }


  /** What one tick does: the room afterwards and the users it marked away. */
  datatype Tick = Tick(room: Room, markedAway: set<User>)

  /** A round's tick needs the room to end it: too few players, no artist
      left, the time up, or everyone guessed. */
  predicate RoundOver(room: Room, rs: RoundState, env: Env) {
    |rs.artists| == 0 || !HasRemainingTime(room, rs, env.now) || EveryoneGuessed(room.users, rs)
  }

  /** Nobody has drawn for longer than the inactivity allowance. */
  predicate Idle(room: Room, rs: RoundState, now: int) {
    !rs.startedDrawing && now - rs.startTime > room.params.drawInactivityTime
  }

  /** `think` of the active state. The round's checks run in order and the
      first that applies wins: too few players resets the room and waits;
      then a round with no artists, out of time, or fully guessed ends; then
      an idle round marks its artists away and ends. Waiting starts a round
      once there are enough players; the score board starts one when its
      time is up. */
  function Think(room: Room, env: Env): (r: Tick)
    requires Valid(room) && Fits(room, env)
    ensures Valid(r.room) && multiset(r.room.users) == multiset(room.users)
    ensures forall u :: u in r.markedAway ==> u in room.users
    ensures room.state.Waiting? ==>
      r.markedAway == {} && r.room == (if HasEnoughPlayers(room, env.away) then StartRound(room, env) else room)
    ensures room.state.Scoring? ==>
      r.markedAway == {} && r.room == (if env.now > room.state.endTime then StartRound(room, env) else room)
    ensures room.state.Playing? && !HasEnoughPlayers(room, env.away) ==>
      r.markedAway == {} && r.room.state == Waiting && r.room.round == 1 && r.room.scores == map[]
      && multiset(r.room.users) == multiset(room.users) && r.room.messages == room.messages
    ensures room.state.Playing? && HasEnoughPlayers(room, env.away) && RoundOver(room, room.state.rs, env) ==>
      r.markedAway == {} && r.room == NextState(room, env)
    ensures room.state.Playing? && HasEnoughPlayers(room, env.away) && !RoundOver(room, room.state.rs, env)
            && Idle(room, room.state.rs, env.now) ==>
      r.markedAway == (set a | a in room.state.rs.artists)
      && r.room == NextState(room, env.(away := env.away + r.markedAway))
    ensures room.state.Playing? && HasEnoughPlayers(room, env.away) && !RoundOver(room, room.state.rs, env)
            && !Idle(room, room.state.rs, env.now) ==>
      r == Tick(room, {})
  {
    match room.state
    case Waiting =>
      Tick(if HasEnoughPlayers(room, env.away) then StartRound(room, env) else room, {})
    case Scoring(_, endTime) =>
      Tick(if env.now > endTime then StartRound(room, env) else room, {})
    case Playing(rs) =>
      if !HasEnoughPlayers(room, env.away) then Tick(Reset(room.(state := Waiting), env), {})
      else if RoundOver(room, rs, env) then Tick(NextState(room, env), {})
      else if Idle(room, rs, env.now) then
        var marked := set a | a in rs.artists;
        Tick(NextState(room, env.(away := env.away + marked)), marked)
      else Tick(room, {})
  }

  /** Once somebody guessed, the artist can neither skip nor ask for a hint. */
  lemma NoSkipOrHintAfterGuess(room: Room, user: User, env: Env)
    requires Valid(room) && Fits(room, env) && room.state.Playing? && room.state.rs.guessers != {}
    ensures Skip(room, user, env) == room
    ensures Hint(room, user) == room
  {
  }

  /** An idle artist is marked away before the next round is chosen, so the
      same artist is not chosen again straight away. */
  lemma IdleArtistNotChosenAgain(room: Room, env: Env)
    requires Valid(room) && Fits(room, env) && room.state.Playing?
    requires HasEnoughPlayers(room, env.away) && !RoundOver(room, room.state.rs, env)
    requires Idle(room, room.state.rs, env.now)
    ensures var t := Think(room, env);
      t.room.state.Playing? ==> forall a :: a in t.room.state.rs.artists ==> a !in room.state.rs.artists
  {
    var marked := set a | a in room.state.rs.artists;
    var env1 := env.(away := env.away + marked);
    var t := Think(room, env);
    assert t.room == NextState(room, env1);
    if t.room.state.Playing? {
      assert t.room == StartRound(room.(round := room.round + 1), env1);
      forall a | a in t.room.state.rs.artists ensures a !in room.state.rs.artists {
        assert a !in env1.away;
      }
    }
  }

  /** Whether a pass of `think` constructs a `RoundState`, which is when it
      asks the room's phrase chooser for a phrase. */
  predicate DrawsPhrase(room: Room, env: Env) {
    match room.state
    case Waiting => HasEnoughPlayers(room, env.away)
    case Scoring(_, endTime) => env.now > endTime
    case Playing(rs) =>
      HasEnoughPlayers(room, env.away) && (RoundOver(room, rs, env) || Idle(room, rs, env.now))
      && room.round + 1 <= room.params.roundLimit
  }

  /** A pass draws a phrase exactly when it leaves the room playing a round
      it was not playing before, and that round's phrase is the drawn one. */
  lemma DrawsPhraseIffNewRound(room: Room, env: Env)
    requires Valid(room) && Fits(room, env)
    ensures var t := Think(room, env);
      DrawsPhrase(room, env) <==> t.room.state.Playing? && (room.state.Playing? ==> t.room.round == room.round + 1)
    ensures DrawsPhrase(room, env) ==> Think(room, env).room.state.rs.phrase == env.phrase
  {
  }

  /** A pass that starts no round does not depend on the phrase. */
  lemma PhraseUnusedWithoutNewRound(room: Room, env: Env, phrase: string)
    requires Valid(room) && Fits(room, env) && !DrawsPhrase(room, env)
    ensures Think(room, env.(phrase := phrase)) == Think(room, env)
  {
  }

  /** One pass of `think` with the phrase asked of the room's chooser: when
      the pass starts a round and the chooser raises, the exception escapes
      `think`. */
  function Poll(room: Room, env: Env, chooser: Util.ChooserInput, pick: nat): (r: Result<Tick, Util.ChooseError>)
    requires Valid(room) && Fits(room, env)
    ensures r.Err? <==> DrawsPhrase(room, env) && Util.Next(chooser, pick).Err?
    ensures r.Err? ==> r.error == Util.Next(chooser, pick).error
    ensures r.Ok? && !DrawsPhrase(room, env) ==> r.value == Think(room, env)
    ensures r.Ok? && DrawsPhrase(room, env) ==>
      && Valid(r.value.room) && r.value.room.state.Playing?
      && chooser.OverWordList? && r.value.room.state.rs.phrase in chooser.list.words
  {
    if !DrawsPhrase(room, env) then Ok(Think(room, env))
    else match Util.Next(chooser, pick)
      case Err(e) => Err(e)
      case Ok(phrase) =>
        var env1 := env.(phrase := phrase);
        DrawsPhraseIffNewRound(room, env1);
        Ok(Think(room, env1))
  }

  /** With the older server's round limit of 1, every round ends on the
      score board, which keeps the round's scores while the room's restart. */
  lemma LegacyRoundEndsOnScoreBoard(room: Room, env: Env)
    requires Valid(room) && Fits(room, env) && room.params == LegacyDefaults
    ensures NextState(room, env).state == Scoring(room.scores, env.now + 500)
    ensures NextState(room, env).scores == map[] && NextState(room, env).round == 1
  {
  }

  /** A message is a correct guess when it is the phrase itself, whatever
      its letter case and surrounding white space. */
  lemma PhraseItselfMatches(phrase: string, message: string)
    requires LowerStr(Strip(message)) == LowerStr(phrase)
    ensures Matches(phrase, message)
  {
    assert OccursAt(LowerStr(Strip(message)), LowerStr(phrase), 0);
  }

  /** An artist who types the phrase gets it into the chat log, since the
      round state declines the line rather than swallowing it. */
  lemma ArtistCanLeakPhrase(room: Room, user: User, env: Env)
    requires Valid(room) && Fits(room, env) && room.state.Playing? && user in room.state.rs.artists
    ensures var r := Say(room, user, room.state.rs.phrase, env);
      |r.messages| > 0 && r.messages[|r.messages| - 1].msg == room.state.rs.phrase
  {
  }

  /** A correct guess after the deadline is also logged as chat, for all to read. */
  lemma LateGuessIsLogged(room: Room, user: User, message: string, env: Env)
    requires Valid(room) && Fits(room, env) && room.state.Playing?
    requires user !in room.state.rs.artists && Matches(room.state.rs.phrase, message)
    requires env.now > room.state.rs.endTime + room.params.timeFudge
    ensures var r := Say(room, user, message, env);
      r.messages == Chat.Append(room.messages, Chat.Entry("chat", message, user.name)) && r.scores == room.scores
  {
  }

  /** The first correct guess of a round is worth 10 to the guesser and 10
      to each artist; if others are still guessing the rush phase starts. */
  lemma FirstGuessWorthTen(room: Room, user: User, env: Env)
    requires Valid(room) && Fits(room, env) && room.state.Playing?
    requires room.state.rs.guessers == {} && user !in room.state.rs.artists
    requires !EveryoneGuessed(room.users, room.state.rs.(guessers := {user}, canSkip := false, hintsRemaining := 0))
    requires forall a :: a in room.state.rs.artists ==> a.name != user.name
    ensures var r := AddGuesser(room, user, env);
      Scores.Get(r.scores, user.name) == Scores.Get(room.scores, user.name) + 10
      && (forall a :: a in room.state.rs.artists ==>
            Scores.Get(r.scores, a.name) >= Scores.Get(room.scores, a.name) + 10)
      && r.state.Playing? && r.state.rs.rushPhase && r.state.rs.endTime == env.now + room.params.rushPhaseTime
  {
    var rs := room.state.rs;
    var r := AddGuesser(room, user, env);
    assert rs.guessers + {user} == {user};
    var scores := Award(room.scores, rs.artists, user, 0);
    assert r.scores == scores;
    assert !rs.rushPhase;
    Scores.NameCountZero(rs.artists, user.name);
    forall a | a in rs.artists
      ensures Scores.Get(scores, a.name) >= Scores.Get(room.scores, a.name) + 10
    {
      ArtistGains(room.scores, rs.artists, user, a);
    }
  }

  /** Under the first guess every artist's name gains at least the 10 bonus
      points. */
  lemma ArtistGains(scores: Scores.Table, artists: seq<User>, user: User, a: User)
    requires a in artists && a.name != user.name
    ensures Scores.Get(Award(scores, artists, user, 0), a.name) >= Scores.Get(scores, a.name) + 10
  {
    var i :| 0 <= i < |artists| && artists[i] == a;
    var c := Scores.NameCount(artists, a.name);
    Scores.NameCountZero(artists, a.name);
    assert c >= 1;
    assert Scores.ArtistBonus(0) * c >= 10;
  }

  /** The first hint of a plain one-word phrase shows its first letter and
      an underscore for every other letter. */
  lemma FirstHintShowsOneLetter(room: Room, user: User)
    requires Valid(room) && room.state.Playing? && user in room.state.rs.artists
    requires room.state.rs.hintsRemaining == TotalHints
    requires !HasPlusSeparator(room.state.rs.phrase) && |room.state.rs.phrase| >= 1
    ensures var r := Hint(room, user);
      r.state.Playing? && r.state.rs.currentHint
        == Some(room.state.rs.phrase[..1] + Repeat('_', |room.state.rs.phrase| - 1))
  {
    Util.HintSimpleShape(room.state.rs.phrase, 1);
  }
}
