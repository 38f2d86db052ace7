# A verified model of the tic-tac-toe backend

The backend keeps several hand-maintained state machines across Postgres rows, Redis keys and in-memory filters. Each
of them stores data twice, or stores data that something simpler determines. This project models the five services
that do so and proves that the copies agree, over every sequence of calls, with time passing and keys expiring.

The pattern is the same throughout. A module of plain functions gives the state (`World`, `Auth`, `Lobby`, `Room`,
`Directory`) and what each service call does to it. A class with the service's own fields performs the writes one after
the other, and each of its methods is proved to move the state as the function says. The promises are lemmas about
those functions over whole runs. Some components of a state are history variables: nothing reads them, they only let a
property speak about the past. They are marked as history where they are declared.

* **Games** (`GameEngine`, `Games`, `GameTheory`, `GameRuns`, `GameCompleteness`, `GameReplies`, `GameService`). The
  cached state, the move log, the metadata and the rows of every game, for any engine. The cache is the replay of the
  log. A stored result comes with its whole numbered log. The service also accepts every legal play, stores every
  complete game, and answers every call as the moves made so far demand.
* **Tic-tac-toe** (`TicTacToe`, `TicTacToeTheory`, `TicTacToeEndings`, `TicTacToeGames`). The engine over any board size
  and any family of lines; the deployed board is an instance.
* **Sessions** (`Sessions`, `SessionTheory`, `SessionRevocation`, `SessionChains`, `SessionReplies`, `AuthService`,
  `AuthGuard`). Token rows and the blacklist over a millisecond clock, with token times in whole seconds as in sections
  4.1.4 and 4.1.6 of RFC 7519.
* **Rooms** (`Rooms`, `RoomTheory`, `RoomsService`). Membership, and the room rows derived from it.
* **Chat** (`Chat`, `ChatService`). The bounded list under any interleaving of senders.
* **Availability** (`Bloom`, `NicknameCandidates`, `Users`, `UsersService`, `Availability`, `AvailabilityService`).
  Bloom filters with arbitrary hash functions beside the user table, rebuilt while users come and go, and the two
  nickname searches on top.

Five promises turn out not to hold of the code without a condition. The condition is proved in both directions.

* A stored game can contain moves made after its result. This happens exactly when an earlier `finish` of that game
  threw: the cache then keeps the finished board and accepts the next move (`GameRuns.RecordExactlyWhen`; a concrete
  tic-tac-toe run is `TicTacToeGames.OverrunHappens`). As long as the database answers it cannot happen, even if rooms
  are lost or reused (`GameRuns.SteadyDatabaseRecords`).
* A game that is over can lose its result. If `finish` throws on the move that fills the board, no next move is left
  (`TicTacToeEndings.LastCellLost`). A game without a result can still get one exactly when its state is live, its board
  is not full and a room points at it (`TicTacToeEndings.EndsExactlyWhen`).
* A revoked access token can be accepted again in the last second of its life, because the blacklist TTL is floored, and
  revoking an inactive session once more overwrites the entry. Over every run the token stays shut out exactly when it
  has expired or the last revocation that wrote an entry was on the second, that is, fell short of the next whole
  second, if at all, counted from the row's creation, by no more than the creation lagged the whole second of the
  signing (`SessionRevocation.ShutsOutExactlyWhen`). A gap of 999 ms is reached (`SessionRevocation.GapCanBe999`), also
  by a second revocation after a first that left none (`SessionRevocation.SecondRevocationReopens`).
* A finished game does not stay `Finished`: asking for its state marks it abandoned
  (`GameCompleteness.FinishedThenAbandoned`). Its result and rows never change, and its status changes exactly by such
  calls (`GameRuns.RecordIsPermanent`).
* A filter can miss a registered name after a rebuild, exactly when the name was announced between its snapshot and its
  swap, is not in the snapshot, has not been announced since, and is not covered by the bits of the other names
  (`Availability.MissedExactlyWhen`; `Availability.LostDuringRebuild` gives such a name for any rebuild in flight).

Where a comment in the source and the code disagree, the model follows the code: `LTRIM -100 -1` keeps the newest
messages, not the oldest (src/modules/chat/chat.service.ts:52-55).

Assumptions: every call is one instant on one monotone clock, except where interleaving is modelled (chat commands,
rebuilds) and except for the lag between signing a token and creating its row; drawn ids are fresh; transactions are all
or nothing; JSON encoding and decoding is the identity; a Redis key is gone from the instant of its expiry; a presented
token carries an authentic signature.

## Model

| member | source | states |
|---|---|---|
| GameEngine.AppendMove | src/modules/game/game-engine.interface.ts:7-19 | one more move extends the replay, the legality and the openness of a log by exactly that move |
| GameEngine.OpenMeans | src/modules/game/game-engine.interface.ts:18 | a log is open exactly when no prefix of it has a result |
| TicTacToe.FindWinner | src/modules/ttt/ttt.engine.ts:86-94 | returns the holder of the first held line in scan order, or nothing |
| TicTacToe.ApplyMove | src/modules/ttt/ttt.engine.ts:59-84 | new board, next player and result as the transition function of the engine gives them, the input state being untouched |
| TicTacToe.EnginePlays | src/modules/ttt/ttt.engine.ts:37-94 | for every board size and family of lines there is an engine with this initial state, legality and transition |
| TicTacToeTheory.LogDepicted | src/modules/ttt/ttt.engine.ts:46-77 | after any legal log the board is its picture: turns alternate from the first player, cells are pairwise distinct, a cell is marked exactly when some move took it, marks split evenly up to the turn, and every move fills one cell |
| TicTacToeTheory.LegalExactly | src/modules/ttt/ttt.engine.ts:46-57 | the legal logs are exactly the alternating logs on different cells of the board |
| TicTacToeTheory.MoverWins | src/modules/ttt/ttt.engine.ts:59-94 | in every play that stops at its first result, all held lines belong to the player who just moved, so no two players both hold one |
| TicTacToeTheory.NoLineBeforeResult | src/modules/ttt/ttt.engine.ts:67-83 | while no result has been reported, no line is held |
| TicTacToeTheory.ScanOrderIrrelevant | src/modules/ttt/ttt.engine.ts:18-27 | scanning the same lines in any order, with any repetitions, reports the same winner |
| TicTacToeTheory.WinnerHoldsALine | src/modules/ttt/ttt.engine.ts:86-94 | a winner is reported exactly when some line is held, and is the holder of one |
| TicTacToeTheory.ResultMeans | src/modules/ttt/ttt.engine.ts:67-83 | the result is a win of the last mover exactly when that player holds a line, else a draw exactly when the board is full, else none |
| TicTacToeTheory.AlwaysAMove | src/modules/ttt/ttt.engine.ts:46-57 | while there is no result, the player to move has a valid move, and fewer moves than cells have been made |
| TicTacToeTheory.FreeCell | src/modules/ttt/ttt.engine.ts:46-57 | before the board is full the player to move has a valid move, also after a result |
| TicTacToeTheory.GameLength | src/modules/ttt/ttt.engine.ts:59-84 | with k different cells per line a win takes at least 2k-1 moves; a draw fills the board; a result is exactly one of win and draw |
| TicTacToeTheory.SamePlayerStalls | src/modules/ttt/ttt.engine.ts:69 | with one id in both seats no second move is possible |
| TicTacToeTheory.ClassicGame | src/modules/ttt/ttt.engine.ts:18-84 | a complete game on the deployed board has 5 to 9 moves in turn on different cells, and ends in a win of the last mover or a draw on a full board |
| TicTacToeTheory.ClassicLinesMean | src/modules/ttt/ttt.engine.ts:18-27 | by row and column: a player holds a line of the deployed board exactly on a whole row, a whole column or a diagonal |
| TicTacToeTheory.ClassicResult | src/modules/ttt/ttt.engine.ts:59-94 | a legal play on the deployed board reports a win of the last mover exactly on three in a row, else a draw on a full board, else nothing |
| TicTacToeTheory.EarlyMovesOpen | src/modules/ttt/ttt.engine.ts:18-94 | no legal log of fewer than five moves has reported a result |
| GameTheory.CacheMoveExtends | src/modules/game/game.service.ts:80-96 | caching a legal move keeps the cached state equal to the replay of the lengthened log |
| GameTheory.FinishSettles | src/repositories/game/game.repository.ts:28-46 | finishing leaves rows numbered 0 to n-1 that hold the log of the stored result, and no keys |
| GameTheory.StepKeeps | src/modules/game/game.service.ts:37-132 | every call keeps the invariant of all games and rooms, including a finish that throws |
| GameTheory.RunKeeps | src/modules/game/game.service.ts:37-132 | so does every run |
| GameRuns.LogIsPlayed | src/modules/game/game.service.ts:80-103 | over every run a game's log, cached or stored, grows by exactly the moves that got past validation, in order |
| GameRuns.ShownStateIsReplay | src/modules/game/game.service.ts:118-132 | in every run, getState shows a state with the very log of legal moves that replays to it, and that log is the accepted moves of the run on this game |
| GameRuns.MetadataOutlivesState | src/modules/game/game.service.ts:66-73 | in every run a live state has live metadata and an active row; a move never finds metadata or engine missing |
| GameRuns.FailedMeansThrew | src/modules/game/game.service.ts:98-111 | the history flag is set exactly when a move on the game replied with a database error |
| GameRuns.RecordExactlyWhen | src/modules/game/game.service.ts:86-111 | every stored record is numbered, holds the accepted moves of the run in order, is legal and ends in the stored result; it is a complete legal game exactly when no finish of the game ever threw |
| GameRuns.SteadyDatabaseRecords | src/repositories/game/game.repository.ts:28-46 | while the database answers and the ids of new users have not moved before, every stored record is a complete legal game |
| GameRuns.RecordIsPermanent | src/modules/game/game.service.ts:113-126 | a stored result and its rows never change; the status stays Finished exactly as long as nobody asks for the state or abandons the game |
| GameRuns.ActiveGamesHaveOneRoom | src/repositories/game/game.repository.ts:13-26 | where rooms persist and games start only in rooms whose game is over, each active game is the current game of exactly one room |
| GameRuns.FinishFindsItsRoom | src/repositories/game/game.repository.ts:41-44 | after every disciplined run, a move fails in a working database exactly when it ends the game and some mover has no user row: the room update always finds its room |
| GameRuns.UnpointedNeverFinishes | src/repositories/game/game.repository.ts:41-44 | a game that no room points at never gets a result again, whatever is called |
| GameRuns.SupersededNeverFinishes | src/repositories/game/game.repository.ts:20-23 | once another game is started in its room, a game never gets a result, whatever is called |
| GameRuns.GamesIndependent | src/modules/game/game.service.ts:20-22 | dropping all calls of other games outside its room leaves a game's state, log, metadata, rows and result the same |
| GameCompleteness.PlayOn | src/modules/game/game.service.ts:59-103 | every legal continuation without a result is accepted move by move |
| GameCompleteness.CompleteGameStored | src/modules/game/game.service.ts:37-111 | every complete legal game can be played, and ends up stored as played with its keys gone and its room free |
| GameCompleteness.FinishedThenAbandoned | src/modules/game/game.service.ts:118-126 | every complete game, once stored, becomes abandoned by one request for its state, its result and rows kept |
| GameCompleteness.OverrunStored | src/modules/game/game.service.ts:86-111 | for any engine that accepts a move after a result: one failing finish and one more move store an illegal record |
| GameReplies.StartAnswer | src/modules/game/game.service.ts:37-57 | a game is started, with the replay of no moves as its state, exactly when type, room, id and database allow; a refusal changes nothing |
| GameReplies.MoveAnswer | src/modules/game/game.service.ts:59-103 | over every run a move on a game that is not live is not found, an illegal one invalid, and any other is answered with the replay of the moves so far and the result its last one reports, unless that result cannot be stored |
| GameReplies.StateAnswer | src/modules/game/game.service.ts:118-132 | over every run asking for a live game shows the replay of the moves so far with these moves and changes nothing; any other known game is marked abandoned with result and rows kept |
| GameReplies.AbandonAnswer | src/modules/game/game.service.ts:113-116 | abandoning marks a known game, live or not, drops its keys and touches nothing else |
| GameReplies.LiveExactlyUntil | src/modules/game/game.service.ts:43-54 | over every run a game is live exactly until dataTTL seconds after its start or last accepted move, unless it has got its result or been abandoned |
| GameReplies.PlayedThenAsked | src/modules/game/game.service.ts:37-132 | told from the calls: a started game played with waits shorter than the TTL is shown until the TTL has passed once, and then has expired |
| GameReplies.FinishedFreesRoom | src/repositories/game/game.repository.ts:41-44 | over every run a game with a result is the current game of no room |
| TicTacToeGames.DeployedRegistry | src/modules/game/game.module.ts:17-22 | a registry with the classic engine deployed |
| TicTacToeGames.StoredGameIsProper | src/repositories/game/game.repository.ts:33-45 | if no finish of it threw, a stored tic-tac-toe game has 5 to 9 rows in order, players in turn, different cells, and the result earned |
| TicTacToeGames.SteadyRecordsAreProper | src/repositories/game/game.repository.ts:33-45 | while the database answers every stored tic-tac-toe game is of that kind |
| TicTacToeGames.LivesAnHour | src/modules/ttt/ttt.engine.ts:35 | a tic-tac-toe game that is on is shown for an hour after its start or last move, and no longer |
| TicTacToeGames.OverrunHappens | src/modules/game/game.service.ts:59-111 | a concrete run that stores six rows for a game won with the fifth move |
| TicTacToeEndings.PlayToTheEnd | src/modules/game/game.service.ts:59-103 | from any log on a board with a free cell, whatever has been reported, playing on stores a result |
| TicTacToeEndings.NeverEnds | src/modules/game/game.service.ts:98-111 | a game with a dead state, a full board or no room never gets a result, whatever is called |
| TicTacToeEndings.EndsExactlyWhen | src/modules/game/game.service.ts:98-111 | a game without a result, whose players have user rows, can still get one exactly when its state is live, its board is not full and a room points at it |
| TicTacToeEndings.LastCellLost | src/modules/game/game.service.ts:98-111 | a finish that throws on the move that fills the board loses the result for good |
| GameService.KindsDisjoint | src/modules/game/game.service.ts:20-22 | state, move and metadata keys never coincide, whatever the ids |
| GameService.KeysInjective | src/modules/game/game.service.ts:20-22 | two games never share a key |
| GameService.KeysChanged | src/modules/game/game.service.ts:20-22 | writing one game's keys keeps the whole keyspace in step with all games |
| GameService.RowsAfterFinish | src/repositories/game/game.repository.ts:38-40 | inserting one game's moves appends them to that game's rows and changes no other game's |
| GameService.GameService.StartGame | src/modules/game/game.service.ts:37-57 | row, room pointer and both keys as specified, or a refusal that changes nothing |
| GameService.GameService.MakeMove | src/modules/game/game.service.ts:59-103 | the writes to the keyspace and tables amount to the specified move, with all error replies |
| GameService.GameService.WriteMove | src/modules/game/game.service.ts:86-96 | the three cache writes add the move to the log, and set state and metadata to expire together |
| GameService.GameService.EndGame | src/modules/game/game.service.ts:105-111 | the whole list goes to the move table and the keys go, or nothing is written |
| GameService.GameService.Finish | src/repositories/game/game.repository.ts:28-46 | all three updates, or none; succeeds exactly when the movers have rows and a room points at the game |
| GameService.GameService.InsertMoves | src/repositories/game/game.repository.ts:38-40 | one row per move with its index as sequence number |
| GameService.GameService.AbandonGame | src/modules/game/game.service.ts:113-116 | marks the row and deletes the keys, or changes nothing |
| GameService.GameService.GetState | src/modules/game/game.service.ts:118-132 | shows state and log, or abandons the game |
| SessionTheory.TtlWindow | src/modules/auth/auth.service.ts:87-94 | a positive TTL ends within the last second before the token's end counted from the row; a zero TTL means that second has begun |
| SessionTheory.StepKeeps | src/modules/auth/auth.service.ts:54-284 | every call keeps rows, blacklist, issued tokens and chains consistent |
| SessionTheory.RevocationCoverage | src/guards/auth.guard.ts:47-57 | in every run: blacklist entries expire in the last second; an active session's token is accepted exactly until it expires; an inactive one's only within less than 1000 ms before its expiry |
| SessionTheory.RefreshTokenAsBearer | src/guards/auth.guard.ts:47-57 | in every run a refresh token presented as a bearer token is accepted exactly until it expires, revoked or not, unless its id is also an access id |
| SessionTheory.HandedOut | src/modules/auth/auth.service.ts:54-85 | the pair handed out is the one the stored row stands for |
| SessionRevocation.RevocationShutsOut | src/modules/auth/auth.service.ts:87-94 | a revocation with a whole second left, first or repeated, shuts the token out under the blacklist it leaves exactly when the token has expired or the revocation is on the second; with none left the old entry stays |
| SessionRevocation.EntryStep | src/modules/auth/auth.service.ts:122-261 | a call deactivates a session exactly when it revokes it, and writes its entry exactly when it does so with a whole second left |
| SessionRevocation.EntryIsLastWrite | src/modules/auth/auth.service.ts:209-232 | after every run a session's entry is that of the last revocation that wrote one |
| SessionRevocation.OnlyRevokedAgain | src/modules/auth/auth.service.ts:209-232 | an inactive session's entry changes only by revoking this very session again |
| SessionRevocation.ShutsOutExactlyWhen | src/modules/auth/auth.service.ts:143-156 | over every run, from any point where a session is inactive, its token is never accepted again exactly when it has expired by then or the last revocation that wrote an entry was on the second |
| SessionRevocation.GapCanBe999 | src/modules/auth/auth.service.ts:209-232 | a revoked token is accepted 999 ms before its expiry, for any lifetime |
| SessionRevocation.SecondRevocationReopens | src/modules/auth/auth.service.ts:209-232 | a second revocation opens a gap of 999 ms where the first had left none |
| SessionChains.SingleUse | src/modules/auth/auth.service.ts:135-146 | over a run a refresh token is consumed at most once, never when inactive, and never becomes active again |
| SessionChains.ActiveCount | src/modules/auth/auth.service.ts:54-85 | a user has as many active sessions as chains that have not ended |
| SessionChains.ChainsStep | src/modules/auth/auth.service.ts:159-199 | a user's chains grow by one with a sign-in or password change and by nothing else, refresh included |
| SessionChains.EndedForGood | src/modules/auth/auth.service.ts:159-199 | an ended chain never runs again |
| SessionChains.ActiveStep | src/modules/auth/auth.service.ts:122-284 | every call changes the number of a user's active sessions by the chain it opens and the chains it closes, counted from the call and the state before it |
| SessionChains.SessionsConserved | src/modules/auth/auth.service.ts:54-284 | over every run a user's active sessions number those before plus the chains opened minus the chains closed by log-outs and revocations |
| SessionChains.ChainsConserved | src/modules/auth/auth.service.ts:54-284 | over every run as many chains have ended as calls have closed |
| SessionChains.RefreshRotates | src/modules/auth/auth.service.ts:183-198 | a refresh replaces the active session of a chain and touches no other |
| SessionChains.BulkRevocation | src/modules/auth/auth.service.ts:234-261 | exactly the user's active sessions other than the excepted one are deactivated, and exactly those with whole seconds left are blacklisted |
| SessionChains.PasswordChangeLeavesOne | src/modules/auth/auth.service.ts:263-284 | after a password change the new session is the user's only active one; other users keep theirs |
| SessionReplies.SignInAnswer | src/modules/auth/auth.service.ts:96-109 | a sign-in or password change issues a pair, and changes anything at all, exactly for a verified login; unknown nickname and wrong password are told apart |
| SessionReplies.PresentedAnswer | src/modules/auth/auth.service.ts:122-181 | any presented refresh token is turned down for its expiry, its missing row or its inactive row, in that order and changing nothing, and otherwise goes through and deactivates its row |
| SessionReplies.HolderAnswer | src/modules/auth/auth.service.ts:122-181 | the holder of a refresh token can refresh or log out exactly while the row is active and its expiry second has not come |
| SessionReplies.LifeOfAPair | src/modules/auth/auth.service.ts:54-85 | told from the calls: until some call revokes the session the access token passes the guard for accessTtl seconds and the refresh token works for refreshTtl seconds from the second of the signing; never after |
| SessionReplies.RevokeAnswer | src/modules/auth/auth.service.ts:209-221 | a session is revoked exactly for the user of its row, active or not; a refusal changes nothing |
| SessionReplies.GuardAnswer | src/guards/auth.guard.ts:28-64 | a request is let through exactly on a public route or with an unexpired bearer token without a live blacklist entry, and then carries that token's claims; otherwise the answer says what was wrong |
| AuthGuard.AuthGuard.CanActivate | src/guards/auth.guard.ts:28-64 | the guard answers as specified and writes the claims to the request only for an accepted token |
| AuthService.AuthService.IssueTokens | src/modules/auth/auth.service.ts:54-85 | signs both tokens and stores the row as specified |
| AuthService.AuthService.LogOut | src/modules/auth/auth.service.ts:122-157 | the specified revocation or refusal |
| AuthService.AuthService.Refresh | src/modules/auth/auth.service.ts:159-199 | the specified rotation or refusal |
| AuthService.AuthService.RevokeSession | src/modules/auth/auth.service.ts:209-232 | revokes the user's session, active or not, or refuses |
| AuthService.AuthService.RevokeAllSessions | src/modules/auth/auth.service.ts:234-261 | query, bulk update and pipeline together are the specified bulk revocation |
| AuthService.AuthService.BlacklistSessions | src/modules/auth/auth.service.ts:252-259 | the pipeline writes every selected session's entry, in whatever order |
| AuthService.AuthService.SignIn | src/modules/auth/auth.service.ts:96-109 | an unknown nickname and a wrong password are refused differently; a verified one gets one pair |
| AuthService.AuthService.ChangePassword | src/modules/auth/auth.service.ts:263-284 | revokes all, then issues one pair |
| RoomTheory.LeaveRoomEffect | src/modules/rooms/rooms.service.ts:168-198 | only the leaver moves; the room goes exactly when the leaver was alone, else waits under the player who stays |
| RoomTheory.JoinMovesOneUser | src/modules/rooms/rooms.service.ts:61-97 | joining is one reassignment of one user; only the room left and the room joined change |
| RoomTheory.RoomsStaySound | src/modules/rooms/rooms.service.ts:47-199 | in every sequential run every roomId exists, rooms have one or two players, play exactly with two, and are owned by a player |
| RoomTheory.StepRefines | src/modules/rooms/rooms.service.ts:61-73 | which calls are refused can be told from the user-to-room map alone, and a refused call changes nothing |
| RoomTheory.RoomsRefineMembership | src/modules/rooms/rooms.service.ts:47-199 | over every run, which rooms exist and their status are what the user-to-room map alone determines |
| RoomTheory.AnnouncedExactlyWhen | src/modules/rooms/rooms.service.ts:144-153 | a deletion is announced exactly when a leave empties the room; a join that deletes one is silent |
| RoomTheory.RefusedBecause | src/modules/rooms/rooms.service.ts:47-123 | the answers to create, join and leave, with their reasons, follow from the user-to-room map alone |
| RoomTheory.JoinAnswer | src/modules/rooms/rooms.service.ts:79-97 | a join hands out the room joined, playing with two players, and the room left, waiting, exactly when somebody stays |
| RoomTheory.NameAndGameKept | src/modules/rooms/rooms.service.ts:158-166 | a room keeps its name and game through every call but a rename by its owner and the game service's own update |
| RoomTheory.RenameAnswer | src/modules/rooms/rooms.service.ts:158-166 | a rename goes through exactly for the owner of a room that is there, and changes nothing but the name |
| RoomTheory.InRoomAnswer | src/modules/rooms/rooms.service.ts:109-115 | exactly the players of a room pass the membership test |
| RoomsService.RoomsService.Create | src/modules/rooms/rooms.service.ts:47-59 | hands out the specified new room, or refuses and changes nothing |
| RoomsService.RoomsService.Join | src/modules/rooms/rooms.service.ts:61-97 | leaving and connecting amount to the specified join; hands out the room joined, and the room left if it is still there |
| RoomsService.RoomsService.LeaveRoom | src/modules/rooms/rooms.service.ts:168-198 | the specified leave, whichever remaining player is picked |
| RoomsService.RoomsService.Leave | src/modules/rooms/rooms.service.ts:117-156 | the specified leave with its event; hands out the room left if it is still there |
| RoomsService.RoomsService.Update | src/modules/rooms/rooms.service.ts:158-166 | renames for the owner only; an absent name is kept, a null one clears it |
| RoomsService.RoomsService.InRoom | src/modules/rooms/rooms.service.ts:109-115 | refuses exactly non-members |
| Chat.WindowUnderInterleaving | src/modules/chat/chat.service.ts:46-58 | under any interleaving of push, trim, renew, delete and expiry the list is a suffix of the pushes since the last clear, at least the newest hundred, at most a hundred plus the untrimmed calls |
| Chat.QuietWindow | src/modules/chat/chat.service.ts:46-73 | with no trim outstanding the list is exactly the newest hundred in order; with no call in flight a list that is there expires exactly an hour after its last renewal |
| Chat.LostOnlyBy | src/modules/chat/chat.service.ts:56-82 | over every interleaving messages are lost exactly by deletion or by an hour without a renewal, and only pushes add any |
| Chat.StaysAnHour | src/modules/chat/chat.service.ts:46-58 | a message sent alone stands at the end of the newest hundred for exactly an hour |
| Chat.AloneIsAtomic | src/modules/chat/chat.service.ts:46-58 | a call nobody interleaves with is its three commands in a row |
| ChatService.ChatService.AddMessage | src/modules/chat/chat.service.ts:32-61 | members append to their room's window, which then stands for an hour, and no other room changes; others are refused and change nothing |
| ChatService.ChatService.GetMessages | src/modules/chat/chat.service.ts:63-73 | members read the window, oldest first |
| ChatService.ChatService.DeleteMessages | src/modules/chat/chat.service.ts:75-82 | clears one room's window |
| Bloom.NoFalseNegatives | src/workers/bloom-filter.worker.ts:27-30 | a filter answers yes for everything that was ever added, whatever its hash functions |
| Bloom.AddAllBits | src/workers/bloom-filter.worker.ts:27-30 | a filter has exactly the bits it had and those of the names added, and no others |
| Bloom.BuiltSize | src/workers/bloom-filter.worker.ts:21-25 | a filter is sized for twice its names, and for a thousand at least |
| Bloom.BuildFilters | src/workers/bloom-filter.worker.ts:19-30 | the loop fills both filters, sized for their counts, with every identifier |
| NicknameCandidates.CandidatesDiffer | src/modules/availability/availability.service.ts:116-122 | two different counters never give the same nickname |
| NicknameCandidates.DecimalCanonical | src/modules/availability/availability.service.ts:116-122 | a counter is printed in digits without a leading zero |
| NicknameCandidates.CanonicalIsDecimal | src/modules/availability/availability.service.ts:116-122 | and there is no other such way to print it |
| NicknameCandidates.FreeWithin | src/modules/availability/availability.service.ts:112-122 | where exactly n names are taken, the first free candidate has a counter of at most n |
| Availability.SuggestedWithin | src/modules/availability/availability.service.ts:105-123 | with n names in an exact filter, the one nickname that createNickname can suggest has a counter of at most n |
| AvailabilityService.AvailabilityService.Rebuild | src/modules/availability/availability.service.ts:34-42 | both filters become those of the listed identifiers |
| AvailabilityService.AvailabilityService.OnUserEvent | src/modules/availability/availability.service.ts:84-103 | adds the nickname, and the email if it is not empty |
| AvailabilityService.AvailabilityService.CreateNickname | src/modules/availability/availability.service.ts:105-123 | the lower-cased basis if free, else the smallest free counter; for any filter, and however long the search is watched, it goes on exactly while every candidate so far is taken; with n names in an exact filter the counter is at most n |
| Users.PutKeepsUnique | prisma/schema.prisma:23-28 | writing a row that collides with none keeps all three columns unique |
| Users.WriteAnswer | prisma/schema.prisma:23-28 | a write goes through exactly when nobody else has one of its three values, and else names the columns |
| Users.UpdateAnswer | src/modules/users/users.service.ts:138-150 | an update puts the present fields in the row and keeps all else, and is refused exactly for an unknown user or a value somebody else has |
| Users.CreatedAtOnce | src/modules/users/users.service.ts:92-113 | a profile with a new Google id and email is created under its own nickname exactly when nobody has it |
| Users.SearchFindsFirst | src/modules/users/users.service.ts:92-131 | the retry loop stops at the first of its ten candidates that nobody has, and gives up exactly when all are taken |
| Users.GoogleAllocation | src/modules/users/users.service.ts:75-136 | find, link, create or fail under exact conditions; uniqueness kept, at most one user added, one event exactly when it is |
| UsersService.UsersService.Create | src/modules/users/users.service.ts:59-73 | inserts and announces, or refuses with the violated columns |
| UsersService.UsersService.Update | src/modules/users/users.service.ts:138-150 | updates and announces, or refuses and changes nothing |
| UsersService.UsersService.FindOrCreateGoogleUser | src/modules/users/users.service.ts:75-136 | the lookups and the retry loop are the specified sign-in |
| UsersService.UsersService.CreateGoogleUser | src/modules/users/users.service.ts:92-135 | inserts under the first insertable candidate with one event, or fails with nothing changed |
| Availability.SwapKeeps | src/modules/availability/availability.service.ts:34-42 | a swap knows every name of the snapshot, and misses at most what was announced since |
| Availability.TableStep | src/modules/users/users.service.ts:59-73 | who is in the table after a step: a sign-up exactly when its values are free, an accepted update, and everyone not deleted |
| Availability.RebuildStep | src/modules/availability/availability.service.ts:34-42 | a rebuild is in flight from its snapshot until it is swapped in or fails, and failing changes nothing else |
| Availability.NoNameMissed | src/modules/availability/availability.service.ts:34-103 | over every run every nickname and non-empty email is in its filter, except names announced during the last completed rebuild |
| Availability.InitialSound | src/modules/availability/availability.service.ts:29-31 | the filters built at module start know the whole table |
| Availability.AtomicRebuildsMissNothing | src/modules/availability/availability.service.ts:34-42 | with nothing happening during rebuilds no name is ever missed |
| Availability.MissedExactlyWhen | src/modules/availability/availability.service.ts:34-103 | over every run from the module start, the filters miss exactly the users' names announced between snapshot and swap of the last completed rebuild, not in its snapshot, not announced since and not covered by other names |
| Availability.SwapKnowsExactly | src/modules/availability/availability.service.ts:34-42 | after a swap a name answers yes exactly when its bits are among those of the snapshot's names |
| Availability.LostDuringRebuild | src/modules/availability/availability.service.ts:34-42 | in any directory with a rebuild in flight, a user who signs up now is missing after the swap exactly when the snapshot's names do not cover the nickname |
| Availability.FirstAttemptSucceeds | src/guards/strategies/google.strategy.ts:39-47 | a nickname that the filter calls free and the last rebuild has not lost is created at the first attempt |
| Availability.SuggestedNameIsCreated | src/guards/strategies/google.strategy.ts:39-47 | in every run, the nickname createNickname suggests is created at the first attempt exactly when nobody has it, and only a name missed since the last rebuild can be taken |

## Left out

- Concurrent `join`, `makeMove` or `refresh` on the same row: each reads before it writes without a lock, so the room, log and single-use results are for atomic calls.
- `onRoomDeleted` of the game service: the emitted payload lacks the `room` it reads, so no end-to-end clean-up is claimed; what it would call is `AbandonGame`.
- The controller's "all sessions except the current one": it passes an access id where the service compares refresh-row ids; only the service is modelled.
- `UsersService.delete` in room runs: it can empty a room without the room service; it is a step of the availability runs.
- Moves with a cell id that is not a number: `cellId` is an integer in the model; a fraction is refused by the source as well.
- GameService.GameService.MakeMove: is one instant, so a key that expires between two commands of one call is not modelled.
- AvailabilityService.AvailabilityService.CreateNickname: is watched for a given number of candidates, because the source's loop does not end when the filter calls every candidate taken.
- Deleted users and their cascading token rows: the tables of the session and game models only grow.
- Gateway reconnect timers, the WebSocket guard, HTTP plumbing, DTO validation, configuration and module wiring: no hard property.
- bcrypt, JWT signatures, JSON encoding and Prisma: foreign code; their contracts are the assumptions above. What a nickname lookup and password check come to is an input.
- The password row that `changePassword` updates: an update of the users service, and none of the session state.
- Roles in tokens and `RolesGuard`: the modelled services and guard never branch on a role.
- `getSessions`, `findAll`, `rejoin` and the other plain reads: they hand out rows and change nothing.
