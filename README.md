# Hangman game-state engine in Dafny

This project models the game-state engine of a single-player hangman game:
the `HangmanGame` class of `main.py`. The engine keeps one round's secret word
(lower-cased), the set of letters guessed so far, the attempts left and the
fixed budget of wrong guesses. `reset` draws a word from the pool and clears
the round. `guess` lower-cases a letter and reports it as "already", "wrong" or
"correct". `is_won`, `is_lost`, `display_word` and `display_guesses` read the
round.

Layout:

- `casemapping.dfy` (module `CaseMapping`): ASCII `lower` and `upper` on one
  character, and ASCII `lower` on a whole word (the engine never upper-cases
  a word).
- `rendering.dfy` (module `Rendering`): `" ".join` of one-character pieces,
  with and without a heading, and `sorted` for a set of characters.
- `hangman.dfy` (module `Hangman`):
  - the `Round` datatype is the state of a round as a value. Its members are
    the queries `IsWon`, `IsLost`, `DisplayWord` and `DisplayGuesses`, the
    one-guess transition `Step`, and `Play`, which applies a sequence of
    guesses.
  - the class `HangmanGame` holds the same state in mutable fields, updated in
    place by `Reset` and `Guess`. `State()` reads the fields as a `Round`.
    `Valid()` is the class invariant. `Guess` is proved to do exactly what
    `Step` says.
  - the lemmas state the round invariant and what sequences of guesses do.
- `client.dfy` (module `HangmanClient`): two concrete rounds are played
  through the class contracts alone. One wins "cat" with the default budget of
  six and shows "c a t". The other loses "dog" with a budget of two and shows
  "Guessed: X Y".

The round invariant (`Round.Consistent`): the word and the guessed letters
contain no upper-case letter, and `attempts == maxAttempts - |guessed letters not in word|`.
`Reset` establishes it and `Guess` keeps it. So between resets the attempts
left depend only on the set of letters guessed. The order of the guesses does
not matter, and neither do repeats.

Two modelling choices:

- `random.choice` in `reset` is a nondeterministic choice of an index into the
  pool. The model only promises that the word is the lower-cased form of some
  element of the pool.
- `sorted(self.guessed)` orders the lowered guesses by code point, and only
  then upper-cases them. So the order shown is that of the guessed characters,
  not of their upper-case forms. For example, '_' comes before 'a' even though
  'A' comes before '_'. `DisplayGuesses` states it this way.

## Model

| member | source | states |
|---|---|---|
| `CaseMapping.ToLower` | main.py:25 | the lowered letter is never upper case; a letter that is not upper case is unchanged; each of 'A'..'Z' becomes the same letter of the alphabet in lower case |
| `CaseMapping.ToUpper` | main.py:44 | the raised letter is never lower case; a letter that is not lower case is unchanged; each of 'a'..'z' becomes the same letter of the alphabet in upper case |
| `CaseMapping.CaseRoundTrip` | main.py:44 | lowering then raising an upper-case letter gives it back, and raising then lowering a lower-case letter gives it back |
| `CaseMapping.Lower` | main.py:20 | `word.lower()` keeps the length, lowers each character in place and leaves no upper-case character |
| `CaseMapping.ToUpperInjective` | main.py:44 | two guessed letters that are not upper case never show as the same upper-case letter |
| `Rendering.SpaceJoin` | main.py:41 | `" ".join` of n one-character pieces has length 2n-1 (0 for none), the pieces in order at the even positions and a space at every odd position |
| `Rendering.Labelled` | main.py:45 | a heading followed by the space-joined pieces: the heading first, then the pieces at even offsets and spaces at odd offsets |
| `Rendering.Ascending` | main.py:44 | `sorted` of a set of characters holds each element exactly once, in strictly ascending order |
| `Hangman.Round.DisplayWord` | main.py:40-41 | length 2n-1 for an n-character word; position 2i shows `word[i]` if guessed and '_' otherwise; odd positions are spaces; nothing unguessed but '_' or ' ' appears; with no guesses only '_' and ' ' appear |
| `Hangman.Round.DisplayGuesses` | main.py:43-45 | "Guessed: " followed by the guessed letters in ascending order, upper-cased, spaces between them |
| `Hangman.DisplayGuessesShowsEach` | main.py:43-45 | every guessed letter appears, upper-cased, in the listing |
| `Hangman.DisplayGuessesNoRepeat` | main.py:43-45 | when no guess is upper case, as `guess` ensures, no letter appears twice in the listing |
| `Hangman.Round.Step` | main.py:24-32 | one `guess` as a value: the word never changes; "already" exactly when the lowered letter was guessed, and then the round is unchanged; otherwise the lowered letter is added; "wrong" exactly when it is new and not in the word, and then one attempt is spent; on "correct" the attempts stay |
| `Hangman.Round.IsWon` | main.py:34-35 | won exactly when every character occurring in the word is among the guesses, so the empty word is won from the start; `WonShowsWord`, `CoveringGuessesWin` and `GuessingTheWordWins` tie it to the display and to the guesses played |
| `Hangman.Round.IsLost` | main.py:37-38 | lost exactly when fewer than one attempt is left, including below zero; `LostIffBudgetSpent` and `PlayAbsentLetters` tie it to the number of wrong letters |
| `Hangman.WonShowsWord` | main.py:34-41 | a won round displays the whole word spaced out; a round not won shows '_' at some unguessed character of the word |
| `Hangman.StepKeepsConsistent` | main.py:24-32 | one guess keeps the round invariant: no upper-case letter in the word or the guesses, `attempts == maxAttempts - |wrong guesses|` |
| `Hangman.ConsistentBounds` | main.py:21-31 | in a consistent round `maxAttempts - |guessed| <= attempts <= maxAttempts` |
| `Hangman.LostIffBudgetSpent` | main.py:37-38 | in a consistent round `is_lost` holds exactly when the wrong guesses number at least `maxAttempts` |
| `Hangman.PlayRecords` | main.py:24-32 | a sequence of guesses keeps the word, adds exactly the lowered letters to `guessed`, and never raises `attempts` |
| `Hangman.PlayKeepsConsistent` | main.py:24-32 | a sequence of guesses keeps the round invariant |
| `Hangman.RepeatGuessIsAlready` | main.py:25-27 | after any guesses, a letter already guessed, in either case, reports "already" and leaves the round unchanged |
| `Hangman.PlayOrderIrrelevant` | main.py:24-32 | from a consistent round, two guess sequences that record the same set of lowered letters reach the same round, so every display agrees |
| `Hangman.PlayAbsentLetters` | main.py:28-38 | m distinct new letters absent from the word lower `attempts` by exactly m, and the round is then lost exactly when the attempts left were at most m |
| `Hangman.PlayPresentLetters` | main.py:28-32 | guessing only letters of the word never changes `attempts` |
| `Hangman.CoveringGuessesWin` | main.py:24-35 | guesses that, with the earlier ones, cover every character of the word win the round, whatever wrong letters are among them |
| `Hangman.GuessingTheWordWins` | main.py:24-35 | guessing every character of the word, using only letters of the word, wins the round with `attempts` unchanged |
| `Hangman.HangmanGame.constructor` | main.py:11-14 | stores the pool and the budget (default 6), then starts a round as `reset` does |
| `Hangman.HangmanGame.Reset` | main.py:16-22 | the invariant holds and `attempts <= maxAttempts`; `guessed` is empty; `attempts == maxAttempts`; the word is "" for an empty pool, otherwise the lowered form of some element of the pool |
| `Hangman.HangmanGame.Guess` | main.py:24-32 | the new state and outcome are exactly those of `Step`. The invariant is kept, and with it `maxAttempts - |guessed| <= attempts <= maxAttempts`; the word and pool are unchanged. "already" exactly when the lowered letter was guessed, and then nothing changes. "wrong" exactly when it is new and absent: it is added and `attempts` drops by one. Otherwise "correct": it is added and `attempts` stays |

## Left out

- `get_categories` and `load_words` (main.py:47-65): directory listing and
  file reading with a fixed fallback list. This is I/O outside the engine.
- Everything from main.py:71 on: the Tkinter window, the canvas drawing, the
  animation timing, message boxes and key/button bindings. This is presentation,
  including the "already guessed" pre-check in `on_letter_click` and the
  body-part index arithmetic.
- The uniform distribution of `random.choice`: the model only says that the
  word comes from the pool.
- Full Unicode case mapping of `str.lower`/`str.upper`: only ASCII letters
  change case here.
- Guesses longer or shorter than one character: `guess` takes a `char`. In
  Python a multi-character string would be a substring test against the word.
  The empty string would be "correct" the first time, since `''` is a
  substring of every word, and "already" after that, since the first call
  adds it to `guessed`. The game only ever passes single letters.
- `words = None`: the Python constructor turns `None` into `[]`. The model
  takes the pool as a sequence, so an absent pool is the empty sequence.
- The game also reassigns `game.words` directly before `reset`. In the model
  `words` is a public field, and the invariant does not depend on it.
