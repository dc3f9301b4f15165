# Adivina el Número and process_numbers in Dafny

This project is a Dafny model of the sequential logic in three Python files of the repository.

- **The guessing-game engine** (`JuegoAdivinaNumero`, `replit/AdivinaNumeroIA/AdivinaNumeroIA/game_logic.py`).
  - The game is an immutable `Game` value. Its fields are the range, the secret, the attempt count, the guess history and the finished flag.
  - Every method of the Python class becomes a pure function: `NewGame`, `Evaluate`, `MakeHint`, `ScoreFor`/`Score`, `GameGrade`, `Statistics` and `Restart`.
  - The secret comes from `random.randint(minimo, maximo)` in the source. Here the caller supplies it, under the same inclusive range constraint.
  - Hints and grades are enumerations. `HintText` and `GradeLabel` map them to the exact Spanish strings, emoji included.
  - The score and grade tables are checked against independent reference definitions:
    - a count of the thresholds passed;
    - a recursive "10 fewer per attempt" rule.
- **The guess validator** (`validar_numero`, `replit/AdivinaNumeroIA/AdivinaNumeroIA/utils.py`).
  - It parses the text with `NumberText.ParseInt` and range-checks the number.
  - It returns a `Verdict(valid, number, message)`, which mirrors the Python triple.
  - `ParseInt` is tied to the printer `IntToString` by the round trip `int(str(n)) == n`.
- **List squaring** (`process_numbers`, `claude/final_main_py.py`).
  - The Python argument is a `PyValue` tagged union.
  - The three checks run in the source's order: a list, non-empty, every element numeric.
  - The first failure is returned as a `ProcessError`. Otherwise the result is the element-wise square.

The modules are:
- `Wrappers`: `Option`, `Result`
- `NumberText`
- `InputValidation`
- `GuessingGame`
- `SquareList`

## Model

| member | source | states |
|---|---|---|
| NumberText.ParseInt | replit/AdivinaNumeroIA/AdivinaNumeroIA/utils.py:27-28 | `int(text)` succeeds exactly on an optional sign followed by at least one digit; unsigned text gives a non-negative number (the value itself is fixed by `ParseWrittenInteger` and `ParseIntRoundTrip`) |
| NumberText.DigitsRoundTrip | replit/AdivinaNumeroIA/AdivinaNumeroIA/utils.py:28 | reading back the decimal digits of a natural number gives that number |
| NumberText.ParseIntRoundTrip | replit/AdivinaNumeroIA/AdivinaNumeroIA/utils.py:28 | parsing the printed form of any integer, negative ones included, gives the integer back |
| NumberText.LeadingZerosIgnored | replit/AdivinaNumeroIA/AdivinaNumeroIA/utils.py:28 | leading zeros do not change the value of a run of digits |
| NumberText.ParseWrittenInteger | replit/AdivinaNumeroIA/AdivinaNumeroIA/utils.py:28 | text made of an optional sign, any number of leading zeros and the digits of `m` parses to `m`, or to `-m` after `-`, so `"-0"` is 0 |
| NumberText.NonCanonicalExamples | replit/AdivinaNumeroIA/AdivinaNumeroIA/utils.py:28 | `"+5"` is 5, `"007"` is 7, `"-0"` is 0 and `"-042"` is -42 |
| NumberText.IntToString | replit/AdivinaNumeroIA/AdivinaNumeroIA/utils.py:31 | the rendering of a bound is canonical decimal: `-` exactly for negatives, never `+`, only digits after the sign, no leading zero except in `"0"` |
| InputValidation.ValidateNumber | replit/AdivinaNumeroIA/AdivinaNumeroIA/utils.py:6-36 | valid iff the text parses to a number in `[low, high]`; then the number is returned in range with an empty message; otherwise the number is `None` and the message is the not-a-number text or the range text naming both bounds |
| InputValidation.ValidateRendered | replit/AdivinaNumeroIA/AdivinaNumeroIA/utils.py:27-33 | every integer written out is accepted with its own value when in range and refused with the range message when not |
| InputValidation.DocumentedExamples | replit/AdivinaNumeroIA/AdivinaNumeroIA/utils.py:21-25 | `"50"` in 1..100 gives `(True, 50, "")`; `"abc"` gives `(False, None, "Por favor, ingresa un número válido.")` |
| InputValidation.RangeMessage | replit/AdivinaNumeroIA/AdivinaNumeroIA/utils.py:30-31 | the out-of-range message starts with its fixed text, then gives `str(minimo)` and `str(maximo)` in canonical form (each parses back to its bound and has exactly the canonical length), joined by `" y "`, and ends with a full stop |
| GuessingGame.NewGame | replit/AdivinaNumeroIA/AdivinaNumeroIA/game_logic.py:14-27 | a new game keeps the range and secret, has no attempts, an empty history, is unfinished, and satisfies the game invariant |
| GuessingGame.Restart | replit/AdivinaNumeroIA/AdivinaNumeroIA/game_logic.py:174-181 | restarting keeps the range, takes the new secret from the range, zeroes attempts, empties the history, clears the finished flag, and restores the invariant |
| GuessingGame.RestartIsNewGame | replit/AdivinaNumeroIA/AdivinaNumeroIA/game_logic.py:174-181 | a restarted game equals a freshly constructed one over the same range and secret |
| GuessingGame.Evaluate | replit/AdivinaNumeroIA/AdivinaNumeroIA/game_logic.py:38-71 | a guess adds exactly one attempt and appends itself to the history; it is correct iff it equals the secret, in which case the difference is 0 and the game is finished; otherwise the difference is the positive distance and the finished flag, secret and range are unchanged |
| GuessingGame.MissPointsToSecret | replit/AdivinaNumeroIA/AdivinaNumeroIA/game_logic.py:54-71 | a wrong guess says "too high" iff it exceeds the secret and "too low" iff it is below, and names the band of its distance |
| GuessingGame.EvaluatePreservesValid | replit/AdivinaNumeroIA/AdivinaNumeroIA/game_logic.py:51-57 | evaluating a guess keeps history length equal to attempts and "finished iff the secret was guessed" |
| GuessingGame.FinishedAfterAnAttempt | replit/AdivinaNumeroIA/AdivinaNumeroIA/game_logic.py:51-57 | a finished reachable game has at least one attempt |
| GuessingGame.PlayEffect | replit/AdivinaNumeroIA/AdivinaNumeroIA/game_logic.py:51-57 | a run of guesses extends the history by exactly those guesses, adds their number to the attempts, and finishes the game iff it was finished or one of them hit the secret |
| GuessingGame.PlayFromNewGame | replit/AdivinaNumeroIA/AdivinaNumeroIA/game_logic.py:22-57 | any game reached from a new game by guessing satisfies the invariant and its history is exactly the guesses made |
| GuessingGame.MakeHint | replit/AdivinaNumeroIA/AdivinaNumeroIA/game_logic.py:73-102 | the hint's direction is "Muy alto" iff the guess exceeds the secret, and its band is chosen by the difference alone |
| GuessingGame.ProximityOf | replit/AdivinaNumeroIA/AdivinaNumeroIA/game_logic.py:87-100 | the five bands are the intervals ≤3, (3,5], (5,10], (10,20] and >20, each in both directions; the three closest bands are exactly the differences within ±10 that the overwritten "Cerca" label used |
| GuessingGame.DirectionLabel | replit/AdivinaNumeroIA/AdivinaNumeroIA/game_logic.py:84-85 | the direction text is "Muy alto" exactly for "too high", otherwise "Muy bajo"; both are eight characters starting with "Muy " |
| GuessingGame.ProximityLabel | replit/AdivinaNumeroIA/AdivinaNumeroIA/game_logic.py:91-100 | a band's text is one of the five band texts of the source and is not the text of any other band, so it is the band's own text |
| GuessingGame.ProximityLabelsDistinct | replit/AdivinaNumeroIA/AdivinaNumeroIA/game_logic.py:91-100 | two different bands are never shown with the same text |
| GuessingGame.HintText | replit/AdivinaNumeroIA/AdivinaNumeroIA/game_logic.py:56-102 | the text is the win message exactly for a correct guess; a miss reads as the direction text, `" - "`, then the band text |
| GuessingGame.ProximityMatchesBounds | replit/AdivinaNumeroIA/AdivinaNumeroIA/game_logic.py:87-100 | the five bands partition all differences: the band's rank is the number of bounds 3, 5, 10, 20 the difference exceeds, whatever the overwritten "Cerca"/"Lejos" label said |
| GuessingGame.ProximityMonotone | replit/AdivinaNumeroIA/AdivinaNumeroIA/game_logic.py:91-100 | a larger difference never gets a closer band |
| GuessingGame.MissTextInjective | replit/AdivinaNumeroIA/AdivinaNumeroIA/game_logic.py:85-102 | the text `"<direction> - <band>"` determines both direction and band |
| GuessingGame.ScoreFor | replit/AdivinaNumeroIA/AdivinaNumeroIA/game_logic.py:104-133 | an unfinished game scores 0; a finished one scores between 100 and 1000, exactly 1000 iff it took one attempt, and at most 390 beyond 20 attempts |
| GuessingGame.Score | replit/AdivinaNumeroIA/AdivinaNumeroIA/game_logic.py:104-133 | a game scores 0 exactly while it is unfinished, 1000 exactly for a first-try win, and otherwise between 100 and 900 |
| GuessingGame.TierScore | replit/AdivinaNumeroIA/AdivinaNumeroIA/game_logic.py:116-129 | up to 20 attempts the score is 1000 less 100 per tier limit (1, 3, 5, 7, 10, 15) already passed |
| GuessingGame.ScoreMatchesReference | replit/AdivinaNumeroIA/AdivinaNumeroIA/game_logic.py:104-133 | the score table equals an independently written recursive rule: tiers up to 20 attempts, then 10 points fewer per extra attempt with a floor of 100 |
| GuessingGame.ScoreNonIncreasing | replit/AdivinaNumeroIA/AdivinaNumeroIA/game_logic.py:105-133 | fewer attempts = higher score: for finished games the score never increases with the attempt count |
| GuessingGame.ScoreFloor | replit/AdivinaNumeroIA/AdivinaNumeroIA/game_logic.py:130-133 | from 50 attempts on a finished game scores exactly the floor of 100 |
| GuessingGame.GradeMatchesThresholds | replit/AdivinaNumeroIA/AdivinaNumeroIA/game_logic.py:135-157 | the grade's rank is the number of thresholds 900, 800, 700, 600, 500, 400 the score falls short of |
| GuessingGame.GradeMonotone | replit/AdivinaNumeroIA/AdivinaNumeroIA/game_logic.py:144-157 | a higher score never gets a lower grade |
| GuessingGame.GradeOf | replit/AdivinaNumeroIA/AdivinaNumeroIA/game_logic.py:144-157 | each of the seven grades covers exactly one interval of scores, bounded by 900, 800, 700, 600, 500 and 400 |
| GuessingGame.GradeLabel | replit/AdivinaNumeroIA/AdivinaNumeroIA/game_logic.py:144-157 | a grade's text is one of the seven grade texts of the source and is not the text of any other grade, so it is the grade's own text |
| GuessingGame.GradeLabelsDistinct | replit/AdivinaNumeroIA/AdivinaNumeroIA/game_logic.py:144-157 | two different grades are never shown with the same text |
| GuessingGame.GameGrade | replit/AdivinaNumeroIA/AdivinaNumeroIA/game_logic.py:142-157 | an unfinished game always grades "Puedes mejorar", a first-try win "¡EXTRAORDINARIO!", and a win after more than 20 attempts "Puedes mejorar" |
| GuessingGame.GradeNonIncreasingInAttempts | replit/AdivinaNumeroIA/AdivinaNumeroIA/game_logic.py:104-157 | winning with fewer attempts never earns a worse grade |
| GuessingGame.Statistics | replit/AdivinaNumeroIA/AdivinaNumeroIA/game_logic.py:159-172 | the statistics reveal the secret iff the game is finished; attempts, history, score and grade are those of the game; for a valid (reachable) game, a revealed secret is one of the guesses and the history length equals the attempts |
| SquareList.IsNumeric | claude/final_main_py.py:56-58 | the numeric check accepts exactly ints, floats and booleans (a subclass of `int` in Python), and rejects `None`, strings, lists and every other value |
| SquareList.Square | claude/final_main_py.py:68 | a square is a non-negative number, a float exactly when the input was a float, and 0 and 1 are their own squares |
| SquareList.ProcessNumbers | claude/final_main_py.py:28-71 | a non-list fails with TypeError first, and an empty list with ValueError; a non-empty list with a non-numeric element always fails with the ValueError naming the first such index and its value; TypeError iff not a list; success iff a non-empty all-numeric list, and then the result has the input's length with element i the square of input i, all non-negative |
| SquareList.SquaresOfOneTwoThree | claude/final_main_py.py:42-44 | `[1, 2, 3]` gives `[1, 4, 9]` |
| SquareList.SquaresOfTwoFloats | claude/final_main_py.py:45-46 | `[2.5, 3.5]` gives `[6.25, 12.25]` |

## Left out

- `generar_numero_secreto` (game_logic.py:29-36) draws with `random.randint`. The secret is a parameter of `NewGame` and `Restart` instead. It must lie in the same inclusive range, which also rules out `low > high`, where `randint` raises.
- NumberText.ParseInt accepts only an optional `+`/`-` sign followed by ASCII digits. Python's `int(text)` also strips surrounding whitespace, accepts `_` between digits and accepts non-ASCII decimal digits. Those inputs are refused here.
- `square_number` comes from `math_operations`, which is not part of this model. It is taken as `x * x`, as the docstring examples show. `True`/`False` square to the integers 1/0.
- SquareList.ProcessNumbers works on exact reals for Python floats. Floating-point rounding and overflow are not modelled.
- SquareList.ProcessNumbers cannot be given `float('nan')` or `float('inf')`. Both pass the `isinstance(value, (int, float))` check in the source, but `PyFloat` holds a real, which has no NaN or infinity.
- InputValidation.ValidateNumber accepts digit strings of any length. Python's `int(text)` raises `ValueError` on more than 4300 digits by default, so the source then returns the not-a-number message.
- InputValidation.RangeMessage renders bounds of any size. In the source, a bound with more than 4300 digits makes `str()` raise `ValueError` inside the `try`, which also ends in the not-a-number message.
- SquareList.ProcessNumbers returns the error kind, index and offending value. It does not build the message text, which embeds Python's `str()` of an arbitrary value.
- Logging calls in `process_numbers`, `main()`, `sys.exit` and the module-level logging setup in final_main_py.py are I/O and process control.
- `main.py` prints to the console and loops over games. It only orchestrates the engine.
- `obtener_numero_usuario`, `confirmar_accion` and `limpiar_pantalla` in utils.py are interactive `input()`/`print` loops.
- `huggingface/app.py` wraps a UI and a sentiment model from external libraries.
- The `GitHub Copilot/math_utils*.py` numeric utilities are not part of this model.
- The default arguments `minimo=1, maximo=100` are kept on `ValidateNumber` only. The game constructors take the range explicitly.
