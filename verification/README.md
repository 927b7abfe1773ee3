# pysketch in Dafny

A model of the game engine of pysketch, a multiplayer draw-and-guess game.
Players log in under a name and join a room. The room then cycles through:

- **Waiting for players.**
- **Rounds.** One or more artists draw a secret phrase while the others
  guess it in the chat.
- **A score board.**

The model covers these parts:

- **Room state machine** (`pysketch/game.py`).
  - Rooms are found and created by name.
  - Users log in and quit.
  - Artists are chosen by rotating the roster.
  - Scoring follows the defaultdict semantics.
  - Guessing, hints, skipping and the rush phase.
  - Drawing pens with their replay buffers.
  - The bounded chat backlog.
  - Idle artists are marked away.
- **Helpers** (`pysketch/util.py`): hint redaction, phrase choice, and the
  word-list name check and line filter.
- **Pen wire format** (`resources/assets/js/pen.js`): the browser pen that
  encodes strokes, the decoder that replays them, and the per-index pen
  table of the networked canvas.
- **Older server** (`pysketchd.py`).
  - Its drawing log, where `clear` really clears.
  - The request handlers: `login` with its name pattern, `disconnect`,
    `join`, `say`, `request_skip`, `request_hint`, `set_away` and the
    polling loop.
  - Its `Room` is game.py's room run with fixed settings (one round of five
    seconds, a 500-second score board). Its round and score states differ
    from game.py's in the messages they send and in one respect that
    matters: its rooms' phrase chooser is built over a bare list, so no
    round ever starts (see Findings). One room engine serves both servers;
    the older server's think loop is given that failure.

Everything is pure functions over immutable datatypes. Values the Python
code reads from outside come in as parameters:

- the clock;
- the users' away flags;
- the phrase `random.choice` returns;
- the order `random.shuffle` leaves the roster in;
- the base64-decoded draw payload.

Modules:

| module | file | source |
|---|---|---|
| `Outcomes` | outcomes.dfy | `Option` and `Result` |
| `Users` | users.dfy | user identity (login serial, session id and name) and rosters without repeats |
| `Text` | text.dfy | `str.strip`, `str.lower`, `os.path.commonprefix`, slicing, `str.split(" +")` |
| `Util` | util.dfy | `create_hint`, `PhraseChooser`, `DirectoryWordLists` |
| `PenCodec` | pen.dfy | pen.js |
| `Strokes`, `CommandLog` | strokes.dfy | game.py `Pen`/`Drawing`; pysketchd.py `Drawing` |
| `Chat` | chat.dfy | `MessageLog` |
| `Selection` | selection.dfy | the artist-choosing loop of `RoundState.__init__` |
| `Scores` | scores.dfy | the score defaultdict and the award rules |
| `Rooms` | rooms.dfy | `Room` and its states |
| `Lobby`, `Server` | server.dfy | `RoomList`, `UserList`, pysketchd.py's handlers |

The model keeps the code's behaviour, quirks included, where it differs from
what the comments and documentation suggest:

- `Drawing.draw` in game.py never clears a pen. `struct.unpack` returns a
  1-tuple, which never equals `PACKET_CLEAR`, so a clear packet is appended
  like any other.
- A draw that fails still uses up a pen index.
- `create_hint` splits on the literal two characters space-plus, not on
  runs of spaces. Every segment is padded against the length of the whole
  phrase.
- In pen.js the test `y >> 127` is JavaScript's `y >> 31`. It is a sign
  test, not a bound on the vertical step. The decoder reports 3 consumed
  bytes for a 5-byte absolute `LINE_TO`.
- `VALID_NAME_PATTERN` admits one trailing newline, because of Python's `$`.
- The word-list name pattern has no end anchor, so only its first character
  is checked.
- An artist's chat line and a correct guess made after the deadline both go
  into the chat log.

## Model

| member | source | states |
|---|---|---|
| Users.Remove | pysketch/game.py:624 | `list.remove` of a present user takes out exactly one occurrence (multiset difference); an absent user leaves the list alone |
| Users.RemoveFirstOccurrence | pysketch/game.py:624 | the occurrence taken out is the first one, and every other user keeps its place in order: the list before it followed by the list after it |
| Users.RemoveFromDistinct | pysketch/game.py:433-435 | removing a user from a roster without repeats leaves one without repeats that no longer holds that user |
| Users.DistinctIffSingleOccurrences | pysketch/game.py:588 | a roster has no repeats exactly when every user occurs at most once in its multiset, which is what the `user not in self.users` guard of `join` maintains |
| Users.PermutationKeepsDistinct | pysketch/game.py:569-570 | a reordering of a roster without repeats (such as `random.shuffle`) has no repeats |
| Text.LowerStrIsLowerCase | pysketch/game.py:292-294 | lower-cased text holds no upper-case ASCII letter, and lower-casing is idempotent |
| Text.LowerStrEqualIff | pysketch/game.py:292-294 | two strings lower-case alike exactly when they are the same length and agree letter by letter up to ASCII case |
| Text.TrimStart | pysketch/game.py:463 | the leading-whitespace part of `strip()`: what is dropped is all whitespace and what remains starts with a non-space |
| Text.TrimEnd | pysketch/game.py:463 | the trailing-whitespace part of `strip()`, symmetric to TrimStart |
| Text.Strip | pysketch/game.py:463 | `strip()` returns a slice of the input with only whitespace cut on either side, beginning and ending with a non-space |
| Text.StripEmptyIffAllSpace | pysketchd.py:666-667 | the `say` handler's `not len(msg.strip())` test holds exactly for all-whitespace messages |
| Text.CommonPrefixLen | pysketch/game.py:464 | `os.path.commonprefix` of two strings: a shared prefix that cannot be extended |
| Text.CommonPrefixIsLongest | pysketch/game.py:464 | every prefix the two strings share is at most as long as the computed one |
| Text.SlicePrefix | pysketch/util.py:25 | Python's `w[:k]`: a prefix of `w`, of length `k` capped at `len(w)` when `k` is not negative |
| Text.SplitPlusJoin | pysketch/util.py:24 | `split(" +")` loses nothing: joining the parts with the separator gives back the phrase |
| Text.SplitPlusPartsClean | pysketch/util.py:24 | no part of the split contains the separator |
| Text.SplitPlusSingle | pysketch/util.py:24 | a phrase without the separator splits into itself alone |
| Text.SplitPlusCons | pysketch/util.py:24 | a separator-free segment followed by the separator is split off as the first part |
| Text.HasPlusSeparatorIsContains | pysketch/util.py:24 | the split's separator test is plain substring containment of space-plus |
| Util.MaskShape | pysketch/util.py:25 | one hint segment is the revealed prefix of the segment followed only by underscores, one per phrase character past the reveal length |
| Util.HintSegments | pysketch/util.py:23-25 | `create_hint` is the split segments, each masked against the whole phrase's length, joined with single spaces |
| Util.HintSimpleShape | pysketch/util.py:23-25 | for a phrase without space-plus, the hint shows the first `len` characters and underscores for the rest, keeping the phrase's length |
| Util.HintSaturates | pysketch/util.py:23-25 | revealing at least the whole phrase shows it unchanged |
| Util.HintMonotone | pysketch/util.py:23-25 | one more revealed character uncovers exactly position `len` and keeps every earlier uncovered character |
| Util.HintOfTwoSegments | pysketch/util.py:23-25 | a two-segment phrase hints as both segments masked against the whole length, joined by one space |
| Util.NextPhrase | pysketch/util.py:33-34 | `random.choice` fails exactly on an empty list and otherwise returns one of its words |
| Util.EveryWordCanBeChosen | pysketch/util.py:33-34 | every word of the list can be returned by some random draw |
| Util.Next | pysketch/util.py:28-34 | `next()` over a bare list raises AttributeError whatever the list; over a `WordList` it raises IndexError exactly when the list is empty, and otherwise returns one of its words |
| Util.ListNamePatternChecksFirstCharOnly | pysketch/util.py:56 | the unanchored `match` accepts a name exactly when its first character is in the class `[A-Za-z0-9\-_ ']` |
| Util.PatternAdmitsPathSeparator | pysketch/util.py:56-63 | any name that starts with an allowed character passes the check whatever follows, a `/../` included, and so reaches `os.path.join` |
| Util.GetWordList | pysketch/util.py:61-72 | an unknown list exactly when the name fails the pattern or the file is missing; otherwise the list carries the file's kept lines under the given name |
| Util.StripIdempotent | pysketch/util.py:68 | stripping a stripped line changes nothing |
| Util.KeptWordsAreClean | pysketch/util.py:67-70 | every kept word is non-empty and already stripped |
| Util.LoadedPhraseIsClean | pysketch/util.py:61-72 | a phrase drawn from a list the directory loader built is non-empty and already stripped |
| Util.KeepWordsMembership | pysketch/util.py:67-70 | a word is kept exactly when it is non-empty and is the stripped form of some line |
| Util.KeepWordsAppend | pysketch/util.py:67-70 | the filter works line by line: the words of two files concatenated are the words of each, concatenated |
| Util.NonEmptyMembers | pysketch/util.py:69-70 | the `if word:` filter keeps exactly the non-empty words |
| Util.EachAppend | pysketch/util.py:67-68 | the per-line map distributes over concatenation |
| PenCodec.ShiftBy127IsSignTest | resources/assets/js/pen.js:118 | `y >> 127` equals `y >> 31`: -1 for a negative 32-bit value and 0 otherwise, so it is 0 for every clamped coordinate |
| PenCodec.SetColor | resources/assets/js/pen.js:77-88 | the pen takes the colour; a packet of opcode then r, g, b bytes is written exactly when the colour changed or was unset |
| PenCodec.SetLineWidth | resources/assets/js/pen.js:90-100 | the width is clamped to [0, 255]; a two-byte packet is written exactly when the clamped width differs from the pen's |
| PenCodec.MoveTo | resources/assets/js/pen.js:110-136 | both coordinates are clamped to [0, 65536]; a packet is written exactly when the position changes, and the pen moves there |
| PenCodec.LineTo | resources/assets/js/pen.js:138-172 | a packet is written exactly when the position changes; drawing with no colour raises, which leaves the pen where it was |
| PenCodec.ReadPacket | resources/assets/js/pen.js:41-67 | a decoded packet consumes at least one and at most the available bytes |
| PenCodec.DecoderLengths | resources/assets/js/pen.js:41-67 | the decoder consumes 1, 4, 2, 5, 3, 3, 3 bytes for opcodes 0 to 6, and stops on any other opcode |
| PenCodec.AbsoluteLineDesyncs | resources/assets/js/pen.js:60-62 | an absolute `LINE_TO` packet is 5 bytes long but the decoder reports 3 consumed |
| PenCodec.SetColorRoundTrip | resources/assets/js/pen.js:48-50 | decoding a colour packet gives the receiver the sender's colour and consumes 4 bytes |
| PenCodec.SetLineWidthRoundTrip | resources/assets/js/pen.js:51-53 | decoding a width packet gives the receiver the sender's clamped width and consumes 2 bytes |
| PenCodec.ClearRoundTrip | resources/assets/js/pen.js:45-47 | a clear packet decodes in 1 byte without changing the receiving pen |
| PenCodec.Uint16RoundTrip | resources/assets/js/pen.js:55 | `getUint16` inverts `setUint16` on 16-bit values |
| PenCodec.Int8RoundTrip | resources/assets/js/pen.js:58 | `getInt8` inverts `setInt8` on signed bytes |
| PenCodec.MoveToRoundTrip | resources/assets/js/pen.js:54-59 | a receiver at the sender's old position ends at the sender's new position after decoding a move, when the coordinates fit 16 bits and the vertical step is at most 127 unless the horizontal step alone forces the absolute form |
| PenCodec.LineToRelRoundTrip | resources/assets/js/pen.js:63-65 | a relative line packet moves a coloured receiver to the sender's new position in 3 bytes |
| PenCodec.LargeDownwardMoveWraps | resources/assets/js/pen.js:118 | a move 128 to 255 pixels straight down is sent as a relative packet whose step byte reads back negative, so the receiver lands 256 pixels above the sender |
| PenCodec.FarEdgeWrapsToZero | resources/assets/js/pen.js:111-123 | any move to or past the far edge (clamped to 65536) from more than 127 pixels away is sent absolutely with x coordinate 0, while the sender's pen stands at 65536 |
| PenCodec.ResetForcesFirstPackets | resources/assets/js/pen.js:20-24 | after `reset` the first colour, width and move are always written |
| PenCodec.ReadAllStep | resources/assets/js/pen.js:26-39 | `read` processes a buffer packet by packet: after one packet it continues from the following bytes with the updated pen |
| PenCodec.GetPen | resources/assets/js/pen.js:199-207 | the pen for an index is created fresh on first use and returned unchanged afterwards |
| PenCodec.GetPenStable | resources/assets/js/pen.js:199-207 | looking up the same index twice returns the same pen and table |
| PenCodec.CanvasReadStep | resources/assets/js/pen.js:183-197 | the networked canvas reads an index byte and hands the next packet to that index's pen |
| Strokes.FindPen | pysketch/game.py:151 | the `user not in self.pens` test: finds the user's only pen, or reports that there is none |
| Strokes.EnsurePen | pysketch/game.py:151-153 | a first-time user gets a new empty pen with the next index; known users change nothing |
| Strokes.Draw | pysketch/game.py:150-167 | the pen exists afterwards; the enveloped packet (pen index then payload) is appended and broadcast exactly when the payload decodes, is non-empty and the index fits a byte; other users' pens are untouched |
| Strokes.DrawReplay | pysketch/game.py:163-173 | after a draw, a late joiner receives the new packet right after the sender's earlier packets and before the other pens' |
| Strokes.ConcatSplit | pysketch/game.py:169-173 | `send_drawn` concatenates the pens' buffers, so the replay splits at any pen |
| Strokes.ClearIsAppended | pysketch/game.py:157-163 | a clear packet grows the sender's buffer instead of emptying it |
| Strokes.FailedDrawUsesIndex | pysketch/game.py:151-167 | an undecodable first draw still takes index 0, so the next new user gets index 1 |
| Strokes.PenIndexOverflowRefuses | pysketch/game.py:158 | from the 257th pen on, `struct.pack('>B', ...)` fails, so nothing is appended or broadcast |
| CommandLog.Draw | pysketchd.py:109-113 | a command without `action` fails; a `clear` empties the log before it is appended; anything else is appended to the log |
| CommandLog.LastClear | pysketchd.py:110-111 | the position of the last clear command, with none after it |
| CommandLog.ReplayFromLastClear | pysketchd.py:109-117 | a late joiner is sent exactly the commands from the last clear on, or all of them when none was a clear |
| Chat.Append | pysketch/game.py:181-186 | the deque grows by one up to `BACKLOG` = 10 and then stays at 10 |
| Chat.AppendShape | pysketch/game.py:181-186 | the new entry is the newest; before it come the old entries, minus the oldest once the log was full |
| Chat.AppendIsLastN | pysketch/game.py:181-186 | appending keeps exactly the last 10 entries of the old log plus the new one |
| Chat.AppendAllKeepsMostRecent | pysketch/game.py:181-186 | after any number of appends the log is the last 10 of everything ever appended, in order |
| Chat.LastNAppend | pysketch/game.py:181 | truncating early and truncating at the end agree |
| Selection.PresentGrows | pysketch/game.py:266-268 | a popped user who is not away joins the end of the artists |
| Selection.AbsentGrows | pysketch/game.py:269-270 | a popped user who is away joins the end of the set-aside list |
| Selection.SplitIsPermutation | pysketch/game.py:264-270 | artists and set-aside users together are exactly the popped users |
| Selection.PresentMembers | pysketch/game.py:267-268 | every artist was popped and is not away |
| Selection.PopCount | pysketch/game.py:264-266 | the loop pops users while its guard holds and stops at the first state where it fails |
| Selection.PopCountIsFirstStop | pysketch/game.py:264-266 | the guard held at every step before the loop stopped |
| Selection.Choose | pysketch/game.py:262-271 | the new roster reorders the old one; there are at most `artist_count` artists; a roster of two or more keeps a non-artist |
| Selection.ChosenArtists | pysketch/game.py:262-271 | the artists are present users taken from the front, in queue order, and they end the roster |
| Selection.RotatesOneStep | pysketch/game.py:262-271 | with nobody away and one artist, the first user draws and moves to the back |
| Selection.RotationDrawsEachInTurn | pysketch/game.py:262-271 | over k rounds, k at most the roster's length, with a stable roster, one artist each and nobody away, the artists are the first k users in queue order and the roster is the rest followed by them |
| Selection.FullRotation | pysketch/game.py:262-271 | after as many such rounds as there are users every user has drawn exactly once, in queue order, and the roster is back in its first order |
| Selection.SkipsAwayUser | pysketch/game.py:262-271 | an away user at the front is set aside and the next present user draws |
| Selection.NoArtistWhenAllAway | pysketch/game.py:262-271 | when every user is away nobody is chosen |
| Scores.Touch | pysketch/game.py:298 | reading a defaultdict entry adds the key with value 0 and changes no value |
| Scores.Add | pysketch/game.py:338 | `scores[name] += delta` changes that name by `delta`, no other name, and adds the key |
| Scores.NameCountZero | pysketch/game.py:337-338 | a name counts zero times exactly when no user of the list carries it |
| Scores.AddEach | pysketch/game.py:337-341 | adding to every artist changes each name by `delta` times the number of artists of that name, and adds those names as keys |
| Scores.TouchEach | pysketch/game.py:296-299 | reading every user's score adds their names as keys and changes no value |
| Scores.ArtistBonus | pysketch/game.py:336-341 | an artist gets 10 for the first guesser, exactly 1 for each of the second to sixth, then nothing |
| Scores.GuesserAward | pysketch/game.py:345 | a guesser gets 10 minus the number of earlier guessers, at least 5 |
| Scores.ArtistTotalCapped | pysketch/game.py:336-341 | over a round an artist earns at most 15 from guesses: 10 for the first guesser plus one for each of the next five |
| Scores.GuessersTotalClosedForm | pysketch/game.py:345 | the first five guessers earn 10 + 9 + 8 + 7 + 6 together, every later guesser 5 |
| Rooms.NewRoom | pysketch/game.py:521-549 | construction fails exactly when the minimum player count is at most 1; a new room waits at round 1 with no users, scores or messages |
| Rooms.CountActive | pysketch/game.py:554-559 | the active-user count is zero exactly when every user is away |
| Rooms.EveryoneGuessedMeans | pysketch/game.py:288-290 | everyone has guessed exactly when every user in the room is a guesser or an artist |
| Rooms.StartRound | pysketch/game.py:248-271 | a fresh round: the new phrase, timer from now, no guessers, two hints, skipping allowed, an empty drawing, artists not away and at the end of a reordered roster |
| Rooms.Reset | pysketch/game.py:569-572 | the roster is reordered, every score reads 0, the round is 1 |
| Rooms.NextState | pysketch/game.py:407-414 | the next round starts exactly while the round limit allows, keeping the scores; otherwise the score board keeps a copy of the scores and the room resets |
| Rooms.StartRush | pysketch/game.py:416-420 | the rush phase starts now and lasts `rush_phase_time`; nothing else in the round changes |
| Rooms.Award | pysketch/game.py:333-345 | each name gains the artist bonus once per artist of that name, plus the guesser award when it is the guesser's |
| Rooms.AddGuesser | pysketch/game.py:328-385 | a repeat guesser changes nothing; otherwise points are awarded, skips and hints are disabled, and the round advances when everyone has guessed or enters the rush phase |
| Rooms.Hint | pysketch/game.py:443-457 | only an artist with hints left gets one; the hint reveals as many characters as hints given so far, counting this one, and every artist loses 2 points |
| Rooms.Judge | pysketch/game.py:459-480 | artists' lines are never guesses; a match counts only up to the deadline plus `time_fudge`; a near miss is a non-match sharing at least 5 leading characters and 30% of the phrase |
| Rooms.Say | pysketch/game.py:629-631 | outside a round every line is logged; in a round a correct guess is scored, a near miss is not logged, and everything else is logged under the sender's name |
| Rooms.Draw | pysketch/game.py:428-431 | in a round, any draw marks drawing as started but only an artist's payload reaches the drawing; outside a round nothing happens |
| Rooms.Skip | pysketch/game.py:437-441 | an artist may skip only while skipping is allowed, which moves to the next state; any other skip changes nothing |
| Rooms.Part | pysketch/game.py:620-627 | the user leaves the roster as `list.remove` does (so the others keep their queue order) and, during a round, the artists; name, settings, scores, messages and round are kept |
| Rooms.Join | pysketch/game.py:587-618 | a newcomer is appended to the roster; rejoining changes nothing; no score value changes, though reading the scores adds their names as keys |
| Rooms.Think | pysketch/game.py:482-497 | one poll: waiting starts a round once there are enough players; the score board starts one after its time; a round with too few players resets to waiting, advances when over, and marks idle artists away before advancing |
| Rooms.NoSkipOrHintAfterGuess | pysketch/game.py:370-372 | once someone has guessed, neither skip nor hint has any effect |
| Rooms.IdleArtistNotChosenAgain | pysketch/game.py:494-497 | artists of an idle round are marked away and so are not artists in the next round |
| Rooms.DrawsPhraseIffNewRound | pysketch/game.py:240-253 | a pass of `think` constructs a `RoundState`, and so asks for a phrase, exactly when it leaves the room playing a round it was not playing before; that round has the drawn phrase |
| Rooms.PhraseUnusedWithoutNewRound | pysketch/game.py:253 | a pass that starts no round does not depend on the phrase |
| Rooms.Poll | pysketch/game.py:35-39 | a pass fails exactly when it would start a round and the chooser raises, with the chooser's error; otherwise a started round is playing with a word of the list, and a pass that starts none is the plain step |
| Rooms.LegacyRoundEndsOnScoreBoard | pysketchd.py:454-457 | with pysketchd.py's settings every round leads straight to a 500-second score board with reset scores; as written no legacy round starts at all, so this describes the corrected server (see Findings) |
| Rooms.PhraseItselfMatches | pysketch/game.py:292-294 | a message equal to the phrase up to case and surrounding whitespace is a correct guess |
| Rooms.ArtistCanLeakPhrase | pysketch/game.py:459-461 | an artist who types the phrase has it logged to the chat that the other players receive |
| Rooms.LateGuessIsLogged | pysketch/game.py:466-469 | a correct guess after the deadline scores nothing and is logged as ordinary chat |
| Rooms.FirstGuessWorthTen | pysketch/game.py:336-345 | the first correct guess earns the guesser 10 and every artist at least 10, and starts the rush phase |
| Rooms.FirstHintShowsOneLetter | pysketch/game.py:443-446 | the first hint of a one-segment phrase is its first letter followed by underscores |
| Lobby.CreateRoom | pysketch/game.py:30-33 | creating an existing name fails; otherwise the new room waits empty and every other room is unchanged |
| Lobby.CreateThenGet | pysketch/game.py:24-33 | a room just created can be looked up and is empty |
| Lobby.Login | pysketch/game.py:94-102 | login fails exactly when some logged-in user, the same connection included, has a non-empty name equal to it ignoring case; otherwise the session id maps to a new user object, told apart by its serial |
| Lobby.LoginKeepsNamesUnique | pysketch/game.py:94-99 | logged-in names stay unique ignoring case |
| Lobby.SameNameOtherCaseRefused | pysketch/game.py:95-97 | a name differing from a logged-in one only in case is refused |
| Lobby.Quit | pysketch/game.py:110-115 | the accounts side of `quit`: the session is forgotten and every other session keeps its user; parting the room first is Server.Disconnect |
| Server.Initial | pysketchd.py:541-544 | the server starts with nobody logged in and one room, `default` |
| Server.TrailingNewlineAccepted | pysketchd.py:18 | a valid name plus a newline passes the check, though the newline is not a word character |
| Server.Login | pysketchd.py:596-606 | a bad name and a name in use are answered with an alert and change nothing; otherwise a new user, numbered by the login count, is logged in, and it is in no room and not away, whatever earlier logins on that connection left behind |
| Server.Leave | pysketchd.py:93-98 | the user is removed from its room and the room from the user; all else stays |
| Server.Enter | pysketchd.py:495-505 | the user joins the named room and the server remembers it |
| Server.Disconnect | pysketchd.py:614-621 | the session is forgotten and its user is in no room afterwards; its room, if any, is parted and every other room, every other user's room, the away flags and the login count are unchanged |
| Server.Join | pysketchd.py:624-638 | ignored unless logged in; an unknown room raises an alert; otherwise the user is in the named room and in no other; a user in another room leaves it by Rooms.Part and joins the named one by Rooms.Join, every other room unchanged; a user in no room is appended; every other user keeps its room; nobody new logs in |
| Server.Move | pysketchd.py:633-635 | part then join: the old room, if any, becomes its Rooms.Part, the named room its Rooms.Join, every other room and every other user's room link stays, and the world stays consistent |
| Server.RejoinIsNoop | pysketchd.py:630-631 | joining one's own room changes nothing |
| Server.LoginThenJoinAppends | pysketchd.py:77-82 | every login makes a new user: after logging in and joining, the room's roster is the old one plus that user with the same state and settings, every other room is unchanged, the new user is linked to that room and every other link stays, and the away flags are unchanged |
| Server.ReloginKeepsEarlierUser | pysketchd.py:624-638 | logging in as a, joining, renaming the connection to b and back to a, and joining again leaves two users named a in the room |
| Server.Say | pysketchd.py:662-668 | ignored unless logged in and in a room, or when the message is all whitespace; otherwise the room handles the line |
| Server.Skip | pysketchd.py:648-652 | ignored unless logged in and in a room; otherwise the room's skip applies |
| Server.Hint | pysketchd.py:655-659 | ignored unless logged in and in a room; otherwise the room's hint applies |
| Server.SetAway | pysketchd.py:671-674 | only the user's own away flag changes, to the requested value, and the world stays consistent |
| Server.Think | pysketchd.py:547-551 | one poll of a room: that room steps, every other room is unchanged, and the users it marks away become away server-wide |
| Server.PollWith | pysketchd.py:547-551 | one pass of the loop with a given chooser: it fails exactly when the pass starts a round and the chooser raises; otherwise the room and the away flags change as Rooms.Poll says and the world stays consistent |
| Server.PollAsWritten | pysketchd.py:466 | with the bare word list, a pass fails with AttributeError exactly when it would start a round, and otherwise is the plain step |
| Server.LegacyRoomNeverStarts | pysketchd.py:184-186 | as written, every pass that does not fail leaves a waiting room as it was |
| Server.TwoPlayersKillLegacyLoop | pysketchd.py:538-551 | two users logging in to a fresh server and joining its waiting room make the next pass fail with AttributeError |
| Server.TwoLoginsJoin | pysketchd.py:77-82 | two logins under names differing beyond case, each followed by a join, append both users to the roster in order |
| Server.Poll | pysketchd.py:466 | with the word list wrapped in a `WordList`, a pass fails only when it would start a round and the list is empty, with IndexError |
| Server.PollStartsRound | pysketchd.py:184-197 | with that fix and a non-empty list, a waiting room with enough players starts a round whose phrase is a word of the list |

## Findings

| source | as written | input that shows it | evidently intended | confidence | as-written member | corrected member |
|---|---|---|---|---|---|---|
| pysketchd.py:466 | `PhraseChooser(word_list)` is handed the bare list of stripped lines of words.txt, while `next()` reads `word_list.words` (pysketch/util.py:34) | two users log in and join `default`; the next pass of the think loop builds a `RoundState`, whose `next()` call raises AttributeError out of `think()`, ending the think greenlet | the list wrapped as `WordList('default', word_list)`, so the round starts with a word of words.txt | high, not executed | Server.PollAsWritten | Server.Poll |

Server.TwoPlayersKillLegacyLoop and Server.LegacyRoomNeverStarts show the
written behaviour; Server.PollStartsRound proves the corrected one.

## Left out

- Socket sends and broadcasts: the model keeps the state a message would
  report, not the messages themselves. This covers `send_state`, the
  `user_join`/`user_part`/`scores`/`state_update` events, the round-end
  notices and the close-guess notice.
- Base64 and `struct`: the draw payload is handed to the model already
  decoded, as an `Option` of bytes, with `None` for input that does not
  decode.
- Floating-point time: the clock is an integer parameter. The 30% near-miss
  ratio is compared in integers (`10 * p >= 3 * n`).
- Lower-casing covers ASCII letters only.
- Randomness: `random.choice` is a supplied pick and `random.shuffle` a
  supplied reordering.
- The polling loops and greenlets: Rooms.Poll and Server.PollWith are one
  pass over one room. An exception the pass raises comes back as an error
  result; the model does not go on to show the loop stopping.
- `Room.set_word_list` and `get_git_revision_hash`: outside the game logic.
- `ScoreState.send_state`'s sorted score list: display only.
- A missing `username`, `msg`, `room` or `away` key, or a value of the wrong
  type, in a request: the model takes well-formed requests.
- Painting on the canvas (`ctx` calls) and the error logging in `read`: no
  game state.
- pysketchd.py's `draw` handler forwarding to a room: modelled separately
  as `CommandLog`, not wired into the server world.
- Rooms.Say: a near miss in game.py is also forwarded to the artists, which
  does not reach the log and is not modelled.
- PenCodec.MoveToRoundTrip: proved only when the coordinates fit 16 bits and
  the vertical step of a relative move fits a signed byte. The other cases are the wrap
  shown by FarEdgeWrapsToZero and LargeDownwardMoveWraps.
- PenCodec.MoveTo: coordinates are integers. The canvas passes fractional
  mouse positions, which pen.js keeps in its pen while `setUint16` and
  `setInt8` send them truncated; the model's pen holds the integer position.
- PenCodec.LineTo: the same integer-coordinate restriction as
  PenCodec.MoveTo.
- Rooms.StartRound: the phrase is taken as given. On the think path
  Rooms.Poll asks the chooser for it, with the chooser's errors.
- Rooms.Say, Rooms.Skip: a round started by the last correct guess or by a
  skip also takes its phrase as given. With an empty word list,
  `random.choice` raises IndexError inside that handler, after the guess
  was scored; that partial step is not modelled.
