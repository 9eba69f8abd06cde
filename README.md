# Voting War server core, modelled in Dafny

Voting War is a live two-team tally game. Browsers vote for `team1` or
`team2`; one authoritative server counts the votes, declares the first team
to reach `WIN_SCORE` (100) the winner, shows a countdown of
`COUNTDOWN_SECONDS` (8) and then clears the scores and starts the next match.
This project models that server core:

- `match.dfy` (module `Match`): the match lifecycle of `MatchManager`
  (states `active`, `victory`, `countdown`) as a class whose methods update
  its fields, proved against pure transition functions (`VoteStep`,
  `ResetStep`, `ExpireStep`) and the invariant `Inv` they keep. The clock is
  an integer number of milliseconds passed in by the caller, and the
  countdown timer firing is the explicit `CountdownExpired` event. `Run`
  applies any sequence of votes and timer events and keeps the invariant.
- `store.dfy` (module `Store`): the in-memory `LocalStore` (a two-entry
  counter map with validated increment, reset and snapshot read), the
  missing-attribute-is-0 shaping of DynamoDB rows, and the `get_store`
  singleton with its fallback to the local store.
- `config.dfy` (module `Config`): the match constants, `DB_MODE` (DynamoDB
  exactly when both AWS credentials are set and non-empty) and
  `CORS_ORIGINS` (comma split, then whitespace strip), with the process
  environment passed in as a map.
- `wrappers.dfy` (module `Wrappers`): `Option` for Python's `None` and
  `Result` for the `ValueError` that `increment` raises.

The server has the states `active`, `victory` and `countdown`; `victory`
is entered and left within one vote, so the invariant says it is never
observable.

## Model

| member | source | states |
|---|---|---|
| `Config.Credential` | server/config.py:40-41 | An unset or empty variable reads as absent; otherwise the value itself, non-empty. |
| `Config.LoadSettings` | server/config.py:19-48 | The mode is DynamoDB exactly when both `AWS_ACCESS_KEY_ID` and `AWS_SECRET_ACCESS_KEY` are set and non-empty; CORS origins come from the variable, and with it unset they are the two localhost origins. |
| `Config.Settings.Mode` | server/config.py:43-48 | `DB_MODE`: DynamoDB when both credentials are truthy, local otherwise; its iff with the environment is stated by `Config.LoadSettings`. |
| `Config.EmptyCredentialIsLocal` | server/config.py:40-48 | An empty-string credential selects the local store. |
| `Config.Split` | server/config.py:30-35 | `split(",")` yields one more part than there are commas, no part holds a comma, and joining the parts with commas gives back the input. |
| `Config.SplitJoin` | server/config.py:30-35 | Splitting the comma-join of comma-free parts gives back those parts. |
| `Config.Strip` | server/config.py:31 | `strip()` returns a contiguous piece of the input, everything cut on either side is whitespace, and the result has no whitespace at either end. |
| `Config.StripIdentity` | server/config.py:31 | Stripping a string without edge whitespace leaves it unchanged. |
| `Config.CorsOrigins` | server/config.py:30-35 | One origin per comma-separated segment (commas + 1), each the stripped segment, none with edge whitespace. |
| `Config.CorsOriginsOfPair` | server/config.py:30-35 | Two comma-free origins without edge whitespace, joined by a comma, come back as exactly those two origins. |
| `Config.DefaultCorsOriginsValue` | server/config.py:30-35 | With the variable unset the origins are exactly `http://localhost:5173` and `http://localhost:5174`. |
| `Store.IncrementSpec` | server/db.py:55-60 | An unknown team is an `InvalidTeam` error; a known team gets exactly one more vote and the other team's count is unchanged. |
| `Store.LocalStore.constructor` | server/db.py:46-49 | A new store holds both teams at 0. |
| `Store.LocalStore.GetScores` | server/db.py:51-53 | Returns a copy equal to the current counts and changes nothing. |
| `Store.LocalStore.Increment` | server/db.py:55-60 | Error and no change for an unknown team; otherwise that team's count goes up by one, the other stays, and the post-increment counts are returned; counts stay non-negative. |
| `Store.LocalStore.Reset` | server/db.py:62-65 | Both counts become 0 and `{team1: 0, team2: 0}` is returned. |
| `Store.ShapeRow` | server/db.py:143-144 | Exactly the two team keys; a missing team attribute counts as 0, a present one keeps its value. |
| `Store.ShapeGetResponse` | server/db.py:129-132 | A response without an item reads as both teams at 0; otherwise the row is shaped as above. |
| `Store.ShapeRowOfStoredRow` | server/db.py:146-148 | Shaping a well-formed row, such as the one reset writes, returns it unchanged. |
| `Store.StoreRegistry.constructor` | server/db.py:166 | No store exists before the first request. |
| `Store.StoreRegistry.GetStore` | server/db.py:169-193 | Once created, the same store is returned on every call; the first call reads the settings' `DB_MODE` and gives a fresh zeroed local store when it is local or when DynamoDB construction fails, and the DynamoDB store otherwise. |
| `Match.Initial` | server/match.py:28-34 | A fresh manager (active, no winner, no countdown, no match played, scores 0) satisfies the invariant. |
| `Match.TruncDiv` | server/match.py:60 | `int()` of a quotient truncates toward zero: for a non-negative dividend the result is the largest multiple not above it, for a negative one the smallest multiple not below it. |
| `Match.CountdownRemaining` | server/match.py:55-60 | 0 when no countdown runs or its end has passed, never negative, the remaining time rounded to the nearest second otherwise, and at most `COUNTDOWN_SECONDS` when at most that much time is left. |
| `Match.Snapshot` | server/match.py:44-52 | The dictionary clients receive; what it shows under the invariant is stated by `Match.SnapshotConsistent`, and `Match.MatchManager.GetFullState` returns it. |
| `Match.StartCountdownStep` | server/match.py:100-104 | The `_start_countdown` transition; `Match.VoteWinsExactlyAtThreshold` and `Match.MatchManager.StartCountdown` state its effect. |
| `Match.VoteStep` | server/match.py:75-96 | The `handle_vote` transition; its properties are the rows `Match.VotePreservesInv` through `Match.VoteWinsExactlyAtThreshold`, and `Match.MatchManager.HandleVote` follows it. |
| `Match.ResetStep` | server/match.py:114-124 | The `_reset_match` transition; `Match.ResetStartsNextMatch` states its effect and `Match.MatchManager.ResetMatch` follows it. |
| `Match.ExpireStep` | server/match.py:106-112 | The countdown timer firing resets only while a countdown is pending; `Match.Apply` and `Match.MatchManager.CountdownExpired` state what it keeps. |
| `Match.VotePreservesInv` | server/match.py:64-96 | Every vote keeps the invariant: the winner is unset exactly while active, an active match has no countdown and both scores below `WIN_SCORE`, a match in countdown has a winner at exactly `WIN_SCORE`. |
| `Match.VoteWhenNotActiveIsIgnored` | server/match.py:75-78 | Outside `active` a vote changes nothing, even for an unknown team, and the current state is returned. |
| `Match.VoteCountsOnce` | server/match.py:80-82 | While active, an unknown team is refused with no change; a known team gets exactly one more vote, the other count and the match counter are unchanged. |
| `Match.VoteWinsExactlyAtThreshold` | server/match.py:84-94 | A vote ends the match exactly when it brings the voted team to `WIN_SCORE`; the winner is then the voted team, the state is `countdown` (not `victory`) and the reset is due 8 s later. |
| `Match.ResetStartsNextMatch` | server/match.py:114-124 | Reset zeroes both scores, sets `active` with no winner and no countdown, and counts exactly one more match. |
| `Match.ScoresWithinBounds` | server/match.py:70-73 | Under the invariant both scores lie between 0 and `WIN_SCORE`. |
| `Match.SnapshotConsistent` | server/match.py:38-53 | Every broadcast state is `active` or `countdown`, names a winner exactly when not active, shows the winner at `WIN_SCORE`, and shows no countdown and both scores below `WIN_SCORE` while active. |
| `Match.Apply` | server/match.py:64-124 | Handling one vote or timer event keeps the invariant and never lowers the match counter. |
| `Match.Run` | server/match.py:64-124 | Any sequence of votes and timer events keeps the invariant and never lowers the match counter. |
| `Match.NoOvershoot` | server/match.py:70-73 | From server start, whatever the events, no score ever exceeds `WIN_SCORE`. |
| `Match.MatchManager.constructor` | server/match.py:28-34 | Starts active with no winner, no countdown, no timer and no match played. |
| `Match.MatchManager.GetFullState` | server/match.py:38-53 | Returns the store's current scores together with the state, winner, matches played, countdown remaining and `WIN_SCORE`. |
| `Match.MatchManager.HandleVote` | server/match.py:64-96 | Updates exactly as `VoteStep` says and returns the full state afterwards, or the store's error with nothing changed; outside `active` nothing changes; the match counter is untouched; the invariant is kept. |
| `Match.MatchManager.StartCountdown` | server/match.py:100-104 | Enters `countdown` with its end `COUNTDOWN_SECONDS` after now and the reset timer scheduled. |
| `Match.MatchManager.ResetMatch` | server/match.py:114-124 | Both scores 0, one more match played, `active`, no winner, no countdown, no timer; the invariant holds afterwards from any state. |
| `Match.MatchManager.CountdownExpired` | server/match.py:106-112 | The timer firing resets the match when a countdown is pending and otherwise changes nothing. |

## Left out

- DynamoDB backend I/O (boto3 resource and client calls, table creation,
  `update_item`, `put_item`, the retry configuration): a foreign service. Only
  its result shaping is modelled; the match manager works over `LocalStore`.
- DynamoDB attribute values are modelled as integers; the `Decimal` to `int`
  conversion and the string key attribute `pk` are not modelled.
- The abstract `ScoreStore` base class: the model has no subtyping, so
  `Backend` names which store `get_store` chose.
- Whether the DynamoDB connection succeeds is a parameter of `GetStore`, not
  something the model decides.
- `Match.MatchManager.constructor` requires both scores below `WIN_SCORE`.
  This always holds for a fresh local store. A persisted DynamoDB row at or
  above `WIN_SCORE` at server start is outside the model.
- asyncio locks, the countdown task and `asyncio.sleep`: each operation is
  atomic. The timer firing is the explicit `CountdownExpired` call, and the
  window in which `_reset_match` has reset the store but not yet taken the
  lock collapses into one step.
- The broadcast of the fresh state after a reset, and the WebSocket
  connection manager, sending and periodic broadcast loop (server/ws.py):
  network I/O and concurrency.
- Wall-clock floats: time is an integer number of milliseconds, so the
  `+ 0.5` rounding of the remaining countdown is exact and sub-millisecond
  precision is not modelled. The source comment calls this rounding "round
  up"; the code rounds to the nearest second with halves up, and
  `Match.CountdownRemaining` states what the code does.
- Cancelling the countdown task: nothing in the source cancels it, so the
  `CancelledError` branch of `_countdown_loop` has no counterpart.
- The DynamoDB store's own team check in `increment` and its `reset`, which
  returns the zero row: they behave as `Store.IncrementSpec` and
  `Store.Zero` state, but their table writes are not modelled.
- FastAPI routing, request validation and HTTP status mapping
  (server/routes.py), app lifespan, CORS middleware and server startup
  (server/main.py): framework and deployment wiring.
- Logging and `.env` loading: environment values are inputs. `HOST`,
  `PORT` and `WS_BROADCAST_INTERVAL` are used only by that wiring.
- The client-side optimistic vote reconciliation, reconnect and polling
  are not part of this model.
