# Arithmetic drill game: problem generation and game session

A model of the `ArithmeticGame` class of a browser arithmetic drill (`script.js`). The
player picks operations and ranges (or a times table) and a duration. The game then shows
one problem at a time. It scores each exact answer and counts down one second per tick
until time is up.

The model has five modules:

- `Wrappers` (`wrappers.dfy`): `Option`, standing for JavaScript's `null` (no current
  problem) and `NaN` (input that does not parse).
- `Problems` (`problems.dfy`): the settings record and the two generators,
  `generateRegularProblem` and `generateTimesTableProblem`, plus the dispatch of
  `generateNewProblem`. These are pure functions of the settings and of integer draws
  (`Draws`) that stand in for `Math.random`. Each draw `k` is the already-floored value
  of `Math.random() * n`, so `0 <= k < n`. A problem is the datatype
  `Problem(op, left, right, answer)`. The predicate `Exact` states that the answer is
  the exact result of the operation shown.
- `Setup` (`setup.dfy`): the setup form as an already-parsed record (`Form`),
  `validateSettings`, and the settings that `collectSettings` builds, as a function
  (`Collected`). Subtraction takes the addition ranges and division the multiplication
  ranges. In times-table mode the operation list is the single marker.
- `Decimal` (`decimal.dfy`): integer-to-decimal text and the unused prefix helper
  `couldBeCorrect`.
- `Game` (`game.dfy`): the class `ArithmeticGame`. Its fields are `score`, `timeLeft`,
  `gameActive`, `currentProblem` and `settings`, plus `ticking`, which says whether the
  interval in `this.timer` is registered. Each event handler is a method. The two
  callbacks are methods too: the body of `setTimeout` is `AdvanceAfterCorrect` and the
  body of `setInterval` is `Tick`. The caller invokes them. Each method's `modifies`
  clause names only the fields it changes. So, for example, `Tick` provably leaves
  `score` alone. Two client methods play a session through the handlers' contracts.

Behaviour of the code that the model keeps as written:

- `checkAnswerLive` adds to the score at once. The next problem is installed only by
  the deferred step. A second exact entry before that step runs (the Enter key after
  the input event) scores again (`Game.AnswerTwiceBeforeAdvance`).
- Answers are non-negative for every subtraction. For the other operations they are
  non-negative only because of the ranges: an addition range below zero gives a
  negative answer (`Problems.NegativeAdditionReachable`).
- Division is exact by construction (`answer * divisor == dividend`). But when zero
  lies in the first multiplication range, the divisor shown can be zero
  (`Problems.ZeroDivisorReachable`). The same holds for a times table of 0.
- `validateSettings` checks only that something is checked. It does not check that
  `min <= max` or that the times-table range is positive (see Left out).

## Model

| member | source | states |
|---|---|---|
| `Problems.DrawIn` | script.js:325-326 | a draw `floor(r*(max-min+1))+min` with `0 <= k < max-min+1` lies in `[min, max]` |
| `Problems.DrawCovers` | script.js:325-326 | every value of `[min, max]` comes from exactly one draw, so the draw is uniform when `k` is |
| `Problems.GenerateRegular` | script.js:319-354 | the problem has the entry's operation and an exact answer; addition and multiplication show the two drawn operands in draw order, each in its range; subtraction shows the larger drawn operand minus the smaller, is non-negative, and uses exactly the two drawn operands; division shows `d1*d2 ÷ d1` with answer `d2`, both in their ranges |
| `Problems.OtherNumber` | script.js:287 | the other factor `floor(r*range)+1` lies in `[1, range]` |
| `Problems.GenerateTimesTable` | script.js:284-315 | the answer is exact; the problem has the shape of the drawn direction (forward `number × k`, reverse `k × number`, division of `number*k` by one factor asking for the other), where `k` is the drawn other factor in `[1, range]`; the coin picks the divisor `number` (answer `k`) or `k` (answer `number`) |
| `Problems.TimesTableComplete` | script.js:286-312 | every problem of the shape of a configured direction is produced by some draws |
| `Problems.Generate` | script.js:277-281 | times-table mode exactly when the marker is in the operation list; the problem is exact and has the times-table shape or the drawn entry's operation |
| `Problems.GeneratedAnswerNonNegative` | script.js:319-353 | with non-negative ranges and times-table number, every generated answer is non-negative |
| `Problems.NegativeAdditionReachable` | script.js:324-328 | an addition whose two lower bounds sum below zero can produce a negative answer |
| `Problems.ZeroDivisorReachable` | script.js:347-352 | a regular division shows a zero divisor for some draw whenever zero lies in the first range |
| `Problems.DivisionAnswerIsQuotient` | script.js:348-352 | for a non-zero divisor the dividend leaves no remainder, the answer is the quotient, and no other integer answer is correct |
| `Setup.EntryFor` | script.js:180-216 | a checked regular box gives an entry of its own operation; subtraction reads the addition ranges and division the multiplication ranges |
| `Setup.RegularOps` | script.js:176-218 | at most one entry per checked box, each with the form ranges its operation reads (addition ranges for addition and subtraction, multiplication ranges for multiplication and division); empty exactly when no box other than the times-table box is checked (including when none is) |
| `Setup.RegularOpsLength` | script.js:177-218 | without the times-table box, entry `i` is the entry of checked box `i`, in form order |
| `Setup.Collected` | script.js:159-220 | the duration is the form's; the marker is in the operation list exactly when the times-table box is checked, and then the list is only the marker and the times table holds the form's number, range and directions; otherwise there is no times table and every entry reads the form ranges of its operation |
| `Setup.CollectedModes` | script.js:159-220 | with the times-table box checked the operation list is exactly the marker and the times table holds the form's number, range and directions; otherwise there is no times table and entry `i` is the entry of checked box `i` |
| `Setup.ValidateSettings` | script.js:142-157 | a form passes exactly when its collected settings leave something to choose from: an operation in regular mode, a direction in times-table mode |
| `Decimal.NatToDecimal` | script.js:381-382 | the text of a natural number is a non-empty string of digits with no leading zero |
| `Decimal.DecimalRoundTrip` | script.js:381-382 | reading the digits back gives the number |
| `Decimal.IntToDecimal` | script.js:381-382 | the text starts with a minus sign exactly for negative values |
| `Decimal.IntToDecimalInjective` | script.js:381-382 | two integers with the same text are equal |
| `Decimal.TextPrefixIsDropDigits` | script.js:381-385 | cutting the last `j` characters off the text of `n` gives the text of `n` with its last `j` digits removed |
| `Decimal.PrefixIffDropDigits` | script.js:381-385 | the text of `p` begins the text of `c` exactly when `p` is `c` with some (not all) of its last digits removed |
| `Decimal.CouldBeCorrect` | script.js:380-386 | the prefix test in numbers: true exactly when both have the same sign and the partial magnitude is the correct magnitude with some of its last digits removed; so the correct answer always could be, and a partial answer as long as the answer could be only if it is the answer |
| `Game.ArithmeticGame.constructor` | script.js:2-9 | no problem, score and time zero, game inactive, no interval |
| `Game.ArithmeticGame.CollectSettings` | script.js:159-220 | the loop that pushes one entry per checked box builds exactly the collected settings |
| `Game.ArithmeticGame.GenerateNewProblem` | script.js:274-282 | an inactive game keeps its problem; an active one gets the problem generated from its settings and draws |
| `Game.ArithmeticGame.StartGame` | script.js:121-140 | a form that fails validation changes nothing; otherwise settings are collected, score 0, time left the duration, game active, interval running, first problem installed |
| `Game.ArithmeticGame.CheckAnswerLive` | script.js:360-377 | the score grows by exactly one when the parsed input equals the current answer in an active game, and nothing changes otherwise (NaN, inactive, no problem, other number); the problem is not replaced |
| `Game.ArithmeticGame.AdvanceAfterCorrect` | script.js:370-374 | the deferred step installs a new problem only while the game is active |
| `Game.ArithmeticGame.Tick` | script.js:394-401 | time left drops by exactly one, the score is untouched, and the game stays active exactly while time is left |
| `Game.ArithmeticGame.EndGame` | script.js:409-416 | the game is inactive and the interval cleared; the score is kept |
| `Game.ArithmeticGame.ExitToMenu` | script.js:418-424 | the game is inactive and the interval cleared |
| `Game.PlayUntilTimeUp` | script.js:393-416 | from a valid start with duration `n >= 1`, the game ends after exactly `n` ticks with score 0, and a correct answer after the end scores nothing |
| `Game.AnswerTwiceBeforeAdvance` | script.js:360-374 | the right answer entered twice before the deferred step runs scores 1 and then 2 |

## Left out

- The DOM: event listeners, the checkbox toggling (script.js:22-41), `setupGameUI`,
  `updateDisplay`, focus, the game-over panel. These are presentation only. The form is
  an already-parsed `Form` record.
- The text of a problem (`"a + b"`, `"a × b"`, `"p ÷ d"`). A problem is the datatype
  `Problem(op, left, right, answer)`, with `left` and `right` in display order.
- `loadSavedSettings`, `applySavedSettings` and `saveSettings` (script.js:44-119). They
  are browser session storage, JSON and writes to the form, so the save and load round
  trip of the settings is not modelled.
- `setInterval`, `setTimeout` and real time. The callbacks are methods that the caller
  invokes. The number of pending deferred steps is not tracked. The interval handle is
  the boolean `ticking`.
- `Math.random` and the floating-point scaling. They are replaced by integer draws
  with range preconditions.
- `parseInt`. Input is `Option<int>`. A form field that does not parse (`NaN` in a range
  or the duration) is not modelled: every form field is an integer.
- `alert`, `confirm` and `location.reload()`. Declining the exit dialog means
  `ExitToMenu` is not called. The reload after exit is not modelled.
- `checkAnswer` (script.js:389-391) only forwards to `checkAnswerLive` and has no member
  of its own.
- JavaScript numbers are doubles. Integers beyond 2^53 are not modelled.
- Problems.GenerateRegular: requires `min <= max` for both ranges. The code never
  checks this. With an empty range, JavaScript still draws some number outside it, and
  that case is not modelled.
- Problems.GenerateTimesTable: requires a times-table range of at least 1 and one of
  the three known directions. The code never checks the range. An unknown direction
  string would leave the problem undefined.
- Game.ArithmeticGame.GenerateNewProblem: requires that the draws fit the settings
  (the two preconditions above) while the game is active.
- Game.ArithmeticGame.StartGame: a second start while an interval runs would register
  a second interval, which one boolean cannot represent. The page replaces the form
  once a game starts, so the code never does this.
