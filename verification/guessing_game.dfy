/** The engine of "Adivina el Número" (`JuegoAdivinaNumero` in
    `game_logic.py`) as an immutable state with pure transitions.  The secret
    that the game draws with `random.randint(minimo, maximo)` is passed in by
    the caller, constrained to the same inclusive range. */
module GuessingGame {
  import opened Wrappers

  /** The fields of one game: the range, the secret, how many guesses were
      evaluated, those guesses in order, and whether the secret was hit. */
  datatype Game = Game(low: int, high: int, secret: int, attempts: nat, history: seq<int>, finished: bool)

  /** What every reachable game satisfies: the secret is inside the range, one
      history entry per attempt, and the game is finished exactly when the
      secret has been guessed. */
  predicate Valid(g: Game) {
    && g.low <= g.secret <= g.high
    && |g.history| == g.attempts
    && (g.finished <==> g.secret in g.history)
  }

  function Abs(x: int): nat {
    if x < 0 then -x else x
  }

  /** Number of entries of `bounds` strictly below `x`: the reference used to
      check the threshold tables below. */
  function CountBelow(bounds: seq<int>, x: int): nat {
    if |bounds| == 0 then 0
    else (if bounds[0] < x then 1 else 0) + CountBelow(bounds[1..], x)
  }

  // ---------------------------------------------------------------- creation

  /** A fresh game (`__init__`) over `[low, high]` with the given secret. */
  function NewGame(low: int, high: int, secret: int): (g: Game)
    requires low <= secret <= high
    ensures Valid(g)
    ensures g.low == low && g.high == high && g.secret == secret
    ensures g.attempts == 0 && g.history == [] && !g.finished
  {
    Game(low, high, secret, 0, [], false)
  }

  /** `reiniciar`: same range, a new secret, everything else back to the start. */
  function Restart(g: Game, secret: int): (r: Game)
    requires g.low <= secret <= g.high
    ensures Valid(r)
    ensures r.low == g.low && r.high == g.high && r.secret == secret
    ensures r.attempts == 0 && r.history == [] && !r.finished
  {
    g.(secret := secret, attempts := 0, history := [], finished := false)
  }

  /** Restarting is indistinguishable from building a new game over the same range. */
  lemma RestartIsNewGame(g: Game, secret: int)
    requires g.low <= secret <= g.high
    ensures Restart(g, secret) == NewGame(g.low, g.high, secret)
  {
  }

  // ------------------------------------------------------------------- hints

  datatype Direction = TooHigh | TooLow

  /** The five proximity bands, closest first. */
  datatype Proximity = VeryClose | Close | FairlyClose | Far | VeryFar

  /** Feedback on one guess: the win message, or a direction plus a band. */
  datatype Hint = Correct | Miss(direction: Direction, proximity: Proximity)

  /** Upper bounds of the first four bands; beyond the last one is `VeryFar`. */
  const ProximityBounds: seq<int> := [3, 5, 10, 20]

  function RankOfProximity(p: Proximity): (rank: nat)
    ensures rank < 5
  {
    match p
    case VeryClose => 0
    case Close => 1
    case FairlyClose => 2
    case Far => 3
    case VeryFar => 4
  }

  /** The band of a difference.  The source first assigns "Cerca"/"Lejos" from
      a single threshold of 10 and then always overwrites it, so only the
      five-way chain matters. */
  function ProximityOf(difference: int): (p: Proximity)
    ensures p == VeryClose <==> difference <= 3
    ensures p == Close <==> 3 < difference <= 5
    ensures p == FairlyClose <==> 5 < difference <= 10
    ensures p == Far <==> 10 < difference <= 20
    ensures p == VeryFar <==> 20 < difference
    ensures RankOfProximity(p) <= 2 <==> difference <= 10
  {
    if difference <= 3 then VeryClose
    else if difference <= 5 then Close
    else if difference <= 10 then FairlyClose
    else if difference <= 20 then Far
    else VeryFar
  }

  /** Exactly one band applies: the one whose rank counts the bounds the
      difference exceeds. */
  lemma ProximityMatchesBounds(difference: int)
    ensures RankOfProximity(ProximityOf(difference)) == CountBelow(ProximityBounds, difference)
  {
    var b := ProximityBounds;
    assert b[1..] == [5, 10, 20] && b[1..][1..] == [10, 20] && b[1..][1..][1..] == [20];
    assert CountBelow([20], difference) == (if 20 < difference then 1 else 0) + CountBelow([], difference);
    assert CountBelow([10, 20], difference) == (if 10 < difference then 1 else 0) + CountBelow([20], difference);
    assert CountBelow([5, 10, 20], difference) == (if 5 < difference then 1 else 0) + CountBelow([10, 20], difference);
  }

  /** A larger difference never gets a closer band. */
  lemma ProximityMonotone(d1: int, d2: int)
    requires d1 <= d2
    ensures RankOfProximity(ProximityOf(d1)) <= RankOfProximity(ProximityOf(d2))
  {
  }

  /** `generar_pista`: direction from the guess against the secret, band from
      the difference the caller passes in. */
  function MakeHint(g: Game, guess: int, difference: int): (h: Hint)
    ensures h.Miss?
    ensures h.direction == TooHigh <==> guess > g.secret
    ensures h.proximity == ProximityOf(difference)
  {
    Miss(if guess > g.secret then TooHigh else TooLow, ProximityOf(difference))
  }

  /** "Muy alto" or "Muy bajo": eight characters, the last four naming the direction. */
  function DirectionLabel(d: Direction): (text: string)
    ensures |text| == 8 && text[..4] == "Muy "
    ensures text == "Muy alto" <==> d == TooHigh
    ensures text == "Muy bajo" <==> d == TooLow
  {
    match d
    case TooHigh => "Muy alto"
    case TooLow => "Muy bajo"
  }

  /** The band texts, closest first. */
  const ProximityLabels: seq<string> :=
    ["¡Muy cerca! \U{1F525}", "Cerca \U{1F44D}", "Relativamente cerca", "Lejos", "Muy lejos \U{2744}\U{FE0F}"]

  /** The text of a band: one of the five band texts, and no other band's. */
  function ProximityLabel(p: Proximity): (text: string)
    ensures text in ProximityLabels
    ensures forall q :: q != p ==> text != ProximityLabels[RankOfProximity(q)]
  {
    ProximityLabels[RankOfProximity(p)]
  }

  /** Different bands are shown with different texts. */
  lemma ProximityLabelsDistinct(p: Proximity, q: Proximity)
    requires p != q
    ensures ProximityLabel(p) != ProximityLabel(q)
  {
  }

  const CorrectText: string := "¡Correcto! \U{1F389}"

  /** The text shown to the player: the win message exactly for a correct
      guess, otherwise `"<direction> - <band>"`. */
  function HintText(h: Hint): (text: string)
    ensures text == CorrectText <==> h.Correct?
    ensures h.Miss? ==> |text| > 11 && text[..8] == DirectionLabel(h.direction)
    ensures h.Miss? ==> text[8..11] == " - " && text[11..] == ProximityLabel(h.proximity)
  {
    match h
    case Correct => CorrectText
    case Miss(d, p) =>
      var text := DirectionLabel(d) + " - " + ProximityLabel(p);
      assert text[0] == 'M' != CorrectText[0];
      text
  }

  /** Different misses read differently: the text determines direction and band. */
  lemma MissTextInjective(h1: Hint, h2: Hint)
    requires h1.Miss? && h2.Miss?
    requires HintText(h1) == HintText(h2)
    ensures h1 == h2
  {
  }

  // -------------------------------------------------------------- evaluation

  /** The dictionary `evaluar_intento` returns. */
  datatype Outcome = Outcome(correct: bool, hint: Hint, difference: int)

  /** The game after a guess, and what the player is told. */
  datatype Step = Step(game: Game, outcome: Outcome)

  /** `evaluar_intento`: count the guess, record it, and report. */
  function Evaluate(g: Game, guess: int): (s: Step)
    ensures s.game.attempts == g.attempts + 1
    ensures s.game.history == g.history + [guess]
    ensures s.game.low == g.low && s.game.high == g.high && s.game.secret == g.secret
    ensures s.outcome.correct <==> guess == g.secret
    ensures s.outcome.correct ==> s.outcome.difference == 0 && s.outcome.hint == Correct && s.game.finished
    ensures !s.outcome.correct ==> s.outcome.difference == Abs(guess - g.secret) > 0
    ensures !s.outcome.correct ==> s.outcome.hint.Miss? && s.game.finished == g.finished
  {
    var counted := g.(attempts := g.attempts + 1, history := g.history + [guess]);
    var difference := Abs(guess - g.secret);
    if guess == g.secret then
      Step(counted.(finished := true), Outcome(true, Correct, 0))
    else
      Step(counted, Outcome(false, MakeHint(g, guess, difference), difference))
  }

  /** A wrong guess points toward the secret and names the band of its distance. */
  lemma MissPointsToSecret(g: Game, guess: int)
    requires guess != g.secret
    ensures Evaluate(g, guess).outcome.hint.direction == TooHigh <==> guess > g.secret
    ensures Evaluate(g, guess).outcome.hint.direction == TooLow <==> guess < g.secret
    ensures Evaluate(g, guess).outcome.hint.proximity == ProximityOf(Abs(guess - g.secret))
  {
  }

  /** Evaluating a guess keeps every invariant of a reachable game. */
  lemma EvaluatePreservesValid(g: Game, guess: int)
    requires Valid(g)
    ensures Valid(Evaluate(g, guess).game)
  {
    var h := Evaluate(g, guess).game.history;
    assert g.secret in h <==> g.secret in g.history || guess == g.secret;
  }

  /** A finished game has seen at least one guess. */
  lemma FinishedAfterAnAttempt(g: Game)
    requires Valid(g) && g.finished
    ensures g.attempts >= 1
  {
  }

  /** Evaluates the guesses in order. */
  function Play(g: Game, guesses: seq<int>): Game
    decreases |guesses|
  {
    if |guesses| == 0 then g
    else Play(Evaluate(g, guesses[0]).game, guesses[1..])
  }

  /** A sequence of guesses appends to the history, adds to the attempt count,
      and finishes the game exactly when one of them hit the secret. */
  lemma {:induction false} PlayEffect(g: Game, guesses: seq<int>)
    ensures Play(g, guesses).history == g.history + guesses
    ensures Play(g, guesses).attempts == g.attempts + |guesses|
    ensures Play(g, guesses).finished <==> g.finished || g.secret in guesses
    ensures Play(g, guesses).secret == g.secret
    ensures Play(g, guesses).low == g.low && Play(g, guesses).high == g.high
    decreases |guesses|
  {
    if |guesses| > 0 {
      var next := Evaluate(g, guesses[0]).game;
      PlayEffect(next, guesses[1..]);
      assert guesses == [guesses[0]] + guesses[1..];
      assert g.history + guesses == next.history + guesses[1..];
      assert g.secret in guesses <==> g.secret == guesses[0] || g.secret in guesses[1..];
    }
  }

  /** Every game reached from a fresh one by guessing is valid and its history
      is exactly the guesses made. */
  lemma PlayFromNewGame(low: int, high: int, secret: int, guesses: seq<int>)
    requires low <= secret <= high
    ensures Valid(Play(NewGame(low, high, secret), guesses))
    ensures Play(NewGame(low, high, secret), guesses).history == guesses
  {
    PlayEffect(NewGame(low, high, secret), guesses);
  }

  // ---------------------------------------------------------------- scoring

  /** The score table of `calcular_puntaje` on the two fields it reads. */
  function ScoreFor(finished: bool, attempts: nat): (r: nat)
    ensures !finished ==> r == 0
    ensures finished ==> 100 <= r <= 1000
    ensures finished ==> (r == 1000 <==> attempts == 1)
    ensures finished && attempts > 20 ==> r <= 390
  {
    if !finished then 0
    else if attempts == 1 then 1000
    else if attempts <= 3 then 900
    else if attempts <= 5 then 800
    else if attempts <= 7 then 700
    else if attempts <= 10 then 600
    else if attempts <= 15 then 500
    else if attempts <= 20 then 400
    else if 400 - (attempts - 20) * 10 > 100 then 400 - (attempts - 20) * 10
    else 100
  }

  /** `calcular_puntaje` on a game: zero exactly while unfinished, 1000 exactly
      for a first-try win, otherwise between 100 and 900. */
  function Score(g: Game): (r: nat)
    ensures r == 0 <==> !g.finished
    ensures r == 1000 <==> g.finished && g.attempts == 1
    ensures g.finished && g.attempts != 1 ==> 100 <= r <= 900
  {
    ScoreFor(g.finished, g.attempts)
  }

  /** Last attempt count of each 100-point tier below a perfect score. */
  const ScoreTiers: seq<int> := [1, 3, 5, 7, 10, 15]

  /** The score table restated as a rule, written independently of the
      if-chain: 1000 points, minus 100 per tier passed up to 20 attempts, then
      10 fewer per extra attempt with a floor of 100. */
  function ReferenceScore(attempts: nat): int
    requires attempts >= 1
    decreases attempts
  {
    if attempts <= 20 then 1000 - 100 * CountBelow(ScoreTiers, attempts)
    else
      var previous := ReferenceScore(attempts - 1) - 10;
      if previous > 100 then previous else 100
  }

  lemma TierScore(attempts: nat)
    requires 1 <= attempts <= 20
    ensures ScoreFor(true, attempts) == 1000 - 100 * CountBelow(ScoreTiers, attempts)
  {
    var t := ScoreTiers;
    assert t[1..] == [3, 5, 7, 10, 15] && t[1..][1..] == [5, 7, 10, 15] && t[1..][1..][1..] == [7, 10, 15];
    assert t[1..][1..][1..][1..] == [10, 15] && t[1..][1..][1..][1..][1..] == [15];
    assert CountBelow([15], attempts) == (if 15 < attempts then 1 else 0) + CountBelow([], attempts);
    assert CountBelow([10, 15], attempts) == (if 10 < attempts then 1 else 0) + CountBelow([15], attempts);
    assert CountBelow([7, 10, 15], attempts) == (if 7 < attempts then 1 else 0) + CountBelow([10, 15], attempts);
    assert CountBelow([5, 7, 10, 15], attempts) == (if 5 < attempts then 1 else 0) + CountBelow([7, 10, 15], attempts);
  }

  /** The table agrees with the reference rule for every finished game. */
  lemma {:induction false} ScoreMatchesReference(attempts: nat)
    requires attempts >= 1
    ensures ScoreFor(true, attempts) == ReferenceScore(attempts)
    decreases attempts
  {
    if attempts <= 20 {
      TierScore(attempts);
    } else if attempts == 21 {
      TierScore(20);
    } else {
      ScoreMatchesReference(attempts - 1);
    }
  }

  /** Fewer attempts never score less. */
  lemma ScoreNonIncreasing(a: nat, b: nat)
    requires 1 <= a <= b
    ensures ScoreFor(true, b) <= ScoreFor(true, a)
  {
  }

  /** From 50 attempts on, every finished game scores the floor. */
  lemma ScoreFloor(attempts: nat)
    requires attempts >= 50
    ensures ScoreFor(true, attempts) == 100
  {
  }

  // ---------------------------------------------------------------- grading

  /** The seven grades of `obtener_calificacion`, best first. */
  datatype Grade = Extraordinary | Excellent | VeryGood | WellDone | GoodJob | NotBad | CanImprove

  /** Score thresholds of the first six grades, from the top. */
  const GradeThresholds: seq<int> := [900, 800, 700, 600, 500, 400]

  function RankOfGrade(gr: Grade): (rank: nat)
    ensures rank < 7
  {
    match gr
    case Extraordinary => 0
    case Excellent => 1
    case VeryGood => 2
    case WellDone => 3
    case GoodJob => 4
    case NotBad => 5
    case CanImprove => 6
  }

  /** `obtener_calificacion` on a score: each grade covers one interval of scores. */
  function GradeOf(score: int): (gr: Grade)
    ensures gr == Extraordinary <==> 900 <= score
    ensures gr == Excellent <==> 800 <= score < 900
    ensures gr == VeryGood <==> 700 <= score < 800
    ensures gr == WellDone <==> 600 <= score < 700
    ensures gr == GoodJob <==> 500 <= score < 600
    ensures gr == NotBad <==> 400 <= score < 500
    ensures gr == CanImprove <==> score < 400
  {
    if score >= 900 then Extraordinary
    else if score >= 800 then Excellent
    else if score >= 700 then VeryGood
    else if score >= 600 then WellDone
    else if score >= 500 then GoodJob
    else if score >= 400 then NotBad
    else CanImprove
  }

  /** The number of thresholds a score falls short of. */
  function CountAbove(bounds: seq<int>, x: int): nat {
    if |bounds| == 0 then 0
    else (if x < bounds[0] then 1 else 0) + CountAbove(bounds[1..], x)
  }

  /** The grade is the one whose rank counts the thresholds the score misses. */
  lemma GradeMatchesThresholds(score: int)
    ensures RankOfGrade(GradeOf(score)) == CountAbove(GradeThresholds, score)
  {
    var t := GradeThresholds;
    assert t[1..] == [800, 700, 600, 500, 400] && t[1..][1..] == [700, 600, 500, 400];
    assert t[1..][1..][1..] == [600, 500, 400] && t[1..][1..][1..][1..] == [500, 400];
    assert t[1..][1..][1..][1..][1..] == [400];
    assert CountAbove([400], score) == (if score < 400 then 1 else 0) + CountAbove([], score);
    assert CountAbove([500, 400], score) == (if score < 500 then 1 else 0) + CountAbove([400], score);
    assert CountAbove([600, 500, 400], score) == (if score < 600 then 1 else 0) + CountAbove([500, 400], score);
    assert CountAbove([700, 600, 500, 400], score) == (if score < 700 then 1 else 0) + CountAbove([600, 500, 400], score);
  }

  /** A higher score never gets a lower grade. */
  lemma GradeMonotone(s1: int, s2: int)
    requires s1 <= s2
    ensures RankOfGrade(GradeOf(s2)) <= RankOfGrade(GradeOf(s1))
  {
  }

  /** The grade of a game: an unfinished one always gets the lowest grade and
      a first-try win the highest. */
  function GameGrade(g: Game): (gr: Grade)
    ensures !g.finished ==> gr == CanImprove
    ensures g.finished && g.attempts == 1 ==> gr == Extraordinary
    ensures g.finished && g.attempts > 20 ==> gr == CanImprove
  {
    GradeOf(Score(g))
  }

  /** Winning with fewer attempts never earns a worse grade. */
  lemma GradeNonIncreasingInAttempts(a: nat, b: nat)
    requires 1 <= a <= b
    ensures RankOfGrade(GradeOf(ScoreFor(true, a))) <= RankOfGrade(GradeOf(ScoreFor(true, b)))
  {
    ScoreNonIncreasing(a, b);
    GradeMonotone(ScoreFor(true, b), ScoreFor(true, a));
  }

  /** The grade texts, best first. */
  const GradeLabels: seq<string> := [
    "¡EXTRAORDINARIO! \U{1F3C6}", "¡Excelente! \U{1F31F}", "¡Muy bien! \U{1F44F}", "¡Bien hecho! \U{1F44D}",
    "Buen trabajo \U{1F60A}", "No está mal \U{1F642}", "Puedes mejorar \U{1F4AA}"]

  /** The text of a grade: one of the seven grade texts, and no other grade's. */
  function GradeLabel(gr: Grade): (text: string)
    ensures text in GradeLabels
    ensures forall other :: other != gr ==> text != GradeLabels[RankOfGrade(other)]
  {
    GradeLabels[RankOfGrade(gr)]
  }

  /** Different grades are shown with different texts. */
  lemma GradeLabelsDistinct(g1: Grade, g2: Grade)
    requires g1 != g2
    ensures GradeLabel(g1) != GradeLabel(g2)
  {
  }

  // ------------------------------------------------------------- statistics

  /** The dictionary `obtener_estadisticas` returns. */
  datatype Stats = Stats(attempts: nat, score: nat, grade: Grade, history: seq<int>, secret: Option<int>)

  /** A snapshot of the game; the secret is revealed only once it has been guessed. */
  function Statistics(g: Game): (st: Stats)
    ensures st.secret.Some? <==> g.finished
    ensures st.secret.Some? ==> st.secret.value == g.secret
    ensures st.attempts == g.attempts && st.history == g.history
    ensures st.score == Score(g) && st.grade == GameGrade(g)
    ensures Valid(g) ==> |st.history| == st.attempts
    ensures Valid(g) && st.secret.Some? ==> st.secret.value in st.history
  {
    Stats(g.attempts, Score(g), GameGrade(g), g.history, if g.finished then Some(g.secret) else None)
  }
}
