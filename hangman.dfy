/** The game-state engine of the hangman game: one round's secret word, the
    letters guessed so far and the remaining wrong-guess budget. */
module Hangman {
  import opened CaseMapping
  import opened Rendering

  /** What `guess` reports: "already", "wrong" or "correct". */
  datatype Outcome = Already | Wrong | Correct

  /** The state of a round, as a value: the secret word, the guessed letters
      and the attempts left. The queries of the game are defined on it. */
  datatype Round = Round(word: string, guessed: set<char>, attempts: int) {

    /** The guessed letters that do not occur in the word. */
    function WrongGuesses(): set<char>
    {
      set c | c in guessed && c !in word
    }

    /** The invariant of a round under a budget of `maxAttempts`: the word
        and the guesses contain no upper-case letter, and every wrong guess,
        and nothing else, has cost one attempt. */
    ghost predicate Consistent(maxAttempts: int)
    {
      (forall i :: 0 <= i < |word| ==> !IsUpper(word[i])) &&
      (forall c :: c in guessed ==> !IsUpper(c)) &&
      attempts == maxAttempts - |WrongGuesses()|
    }

    /** One call of `guess`: the new round and the reported outcome. */
    function Step(letter: char): (res: (Round, Outcome))
      ensures res.0.word == word
      ensures res.1 == Already <==> ToLower(letter) in guessed
      ensures res.1 == Already ==> res.0 == this
      ensures res.1 != Already ==> res.0.guessed == guessed + {ToLower(letter)}
      ensures res.1 == Wrong <==> ToLower(letter) !in guessed && ToLower(letter) !in word
      ensures res.1 == Wrong ==> res.0.attempts == attempts - 1
      ensures res.1 == Correct ==> res.0.attempts == attempts
    {
      var c := ToLower(letter);
      if c in guessed then (this, Already)
      else if c !in word then (Round(word, guessed + {c}, attempts - 1), Wrong)
      else (Round(word, guessed + {c}, attempts), Correct)
    }

    /** The round after guessing `letters` one after the other. */
    function Play(letters: seq<char>): Round
      decreases |letters|
    {
      if letters == [] then this else Step(letters[0]).0.Play(letters[1..])
    }

    /** `is_won`: every character of the word has been guessed; so the empty
        word is won from the start, and winning depends only on which
        characters occur in the word, not on where or how often. */
    predicate IsWon()
      ensures word == [] ==> IsWon()
      ensures IsWon() <==> forall c :: c in word ==> c in guessed
    {
      forall i :: 0 <= i < |word| ==> word[i] in guessed
    }

    /** `is_lost`: the budget is used up, including when attempts have gone
        below zero because guessing continued after the loss. */
    predicate IsLost()
      ensures IsLost() <==> attempts < 1
    {
      attempts <= 0
    }

    /** `display_word`: the word with every unguessed character masked by
        '_', the characters separated by spaces. */
    function DisplayWord(): (s: string)
      ensures |s| == JoinedLength(|word|)
      ensures forall i :: 0 <= i < |word| ==>
        s[2 * i] == (if word[i] in guessed then word[i] else '_')
      ensures forall k :: 0 <= k < |s| && k % 2 == 1 ==> s[k] == ' '
      ensures forall k :: 0 <= k < |s| ==> s[k] in guessed || s[k] == '_' || s[k] == ' '
      ensures guessed == {} ==> forall k :: 0 <= k < |s| ==> s[k] == '_' || s[k] == ' '
    {
      var masked := seq(|word|, i requires 0 <= i < |word| =>
        if word[i] in guessed then word[i] else '_');
      var s := SpaceJoin(masked);
      assert forall k :: 0 <= k < |s| && k % 2 == 0 ==> s[k] == masked[k / 2];
      s
    }

    /** `display_guesses`: "Guessed: " and then the guessed letters in
        ascending order, upper-cased, separated by spaces. */
    function DisplayGuesses(): (s: string)
      ensures |s| == |GuessedPrefix| + JoinedLength(|guessed|)
      ensures s[..|GuessedPrefix|] == GuessedPrefix
      ensures forall i :: 0 <= i < |guessed| ==>
        s[|GuessedPrefix| + 2 * i] == ToUpper(Ascending(guessed)[i])
      ensures forall k :: 0 <= k < JoinedLength(|guessed|) && k % 2 == 1 ==> s[|GuessedPrefix| + k] == ' '
    {
      var letters := Ascending(guessed);
      Labelled(GuessedPrefix, seq(|letters|, i requires 0 <= i < |letters| => ToUpper(letters[i])))
    }
  }

  const GuessedPrefix: string := "Guessed: "

  /** The set of letters a sequence of guesses records. */
  function LowerSet(letters: seq<char>): set<char>
  {
    set i | 0 <= i < |letters| :: ToLower(letters[i])
  }

  lemma LowerSetCons(letters: seq<char>)
    requires letters != []
    ensures LowerSet(letters) == {ToLower(letters[0])} + LowerSet(letters[1..])
  {
    var tail := letters[1..];
    forall c | c in LowerSet(letters)
      ensures c in {ToLower(letters[0])} + LowerSet(tail)
    {
      var i :| 0 <= i < |letters| && c == ToLower(letters[i]);
      if i > 0 {
        assert c == ToLower(tail[i - 1]);
      }
    }
    forall c | c in LowerSet(tail)
      ensures c in LowerSet(letters)
    {
      var i :| 0 <= i < |tail| && c == ToLower(tail[i]);
      assert c == ToLower(letters[i + 1]);
    }
  }

  /** Each guess keeps the round's invariant. */
  lemma StepKeepsConsistent(r: Round, maxAttempts: int, letter: char)
    requires r.Consistent(maxAttempts)
    ensures r.Step(letter).0.Consistent(maxAttempts)
  {
    var c := ToLower(letter);
    if c !in r.guessed {
      var next := r.Step(letter).0;
      if c !in r.word {
        assert next.WrongGuesses() == r.WrongGuesses() + {c};
      } else {
        assert next.WrongGuesses() == r.WrongGuesses();
      }
    }
  }

  /** The budget is never exceeded, and it falls no further than one
      attempt per guessed letter. */
  lemma ConsistentBounds(r: Round, maxAttempts: int)
    requires r.Consistent(maxAttempts)
    ensures maxAttempts - |r.guessed| <= r.attempts <= maxAttempts
  {
    assert r.WrongGuesses() <= r.guessed;
    SubsetCardinality(r.WrongGuesses(), r.guessed);
  }

  lemma {:induction false} SubsetCardinality(a: set<char>, b: set<char>)
    requires a <= b
    ensures |a| <= |b|
    decreases b
  {
    if a != {} {
      var x :| x in a;
      SubsetCardinality(a - {x}, b - {x});
    }
  }

  /** `is_lost` holds exactly when the wrong guesses have used up the budget. */
  lemma LostIffBudgetSpent(r: Round, maxAttempts: int)
    requires r.Consistent(maxAttempts)
    ensures r.IsLost() <==> |r.WrongGuesses()| >= maxAttempts
  {
  }

  /** Playing a sequence of guesses keeps the word, adds exactly the lowered
      letters to the guesses, and never raises the attempts left. */
  lemma {:induction false} PlayRecords(r: Round, letters: seq<char>)
    ensures r.Play(letters).word == r.word
    ensures r.Play(letters).guessed == r.guessed + LowerSet(letters)
    ensures r.Play(letters).attempts <= r.attempts
    decreases |letters|
  {
    if letters != [] {
      LowerSetCons(letters);
      PlayRecords(r.Step(letters[0]).0, letters[1..]);
    }
  }

  /** A sequence of guesses keeps the round's invariant. */
  lemma {:induction false} PlayKeepsConsistent(r: Round, maxAttempts: int, letters: seq<char>)
    requires r.Consistent(maxAttempts)
    ensures r.Play(letters).Consistent(maxAttempts)
    decreases |letters|
  {
    if letters != [] {
      StepKeepsConsistent(r, maxAttempts, letters[0]);
      PlayKeepsConsistent(r.Step(letters[0]).0, maxAttempts, letters[1..]);
    }
  }

  /** A letter guessed before, in either case, is reported as "already" and
      changes nothing. */
  lemma RepeatGuessIsAlready(r: Round, letters: seq<char>, letter: char)
    requires ToLower(letter) in LowerSet(letters)
    ensures r.Play(letters).Step(letter) == (r.Play(letters), Already)
  {
    PlayRecords(r, letters);
  }

  /** The order of the guesses, and repeats among them, do not matter: two
      sequences that record the same letters lead to the same round. */
  lemma PlayOrderIrrelevant(r: Round, maxAttempts: int, xs: seq<char>, ys: seq<char>)
    requires r.Consistent(maxAttempts)
    requires LowerSet(xs) == LowerSet(ys)
    ensures r.Play(xs) == r.Play(ys)
  {
    PlayRecords(r, xs);
    PlayRecords(r, ys);
    PlayKeepsConsistent(r, maxAttempts, xs);
    PlayKeepsConsistent(r, maxAttempts, ys);
    assert r.Play(xs).WrongGuesses() == r.Play(ys).WrongGuesses();
  }

  /** Guessing distinct new letters none of which is in the word costs one
      attempt each, so the round is lost exactly when they match the budget. */
  lemma {:induction false} PlayAbsentLetters(r: Round, letters: seq<char>)
    requires forall i :: 0 <= i < |letters| ==>
      ToLower(letters[i]) !in r.guessed && ToLower(letters[i]) !in r.word
    requires forall i, j :: 0 <= i < j < |letters| ==> ToLower(letters[i]) != ToLower(letters[j])
    ensures r.Play(letters).attempts == r.attempts - |letters|
    ensures r.Play(letters).IsLost() <==> r.attempts <= |letters|
    decreases |letters|
  {
    if letters != [] {
      var next := r.Step(letters[0]).0;
      assert next.guessed == r.guessed + {ToLower(letters[0])};
      assert forall i :: 0 <= i < |letters[1..]| ==> letters[1..][i] == letters[i + 1];
      PlayAbsentLetters(next, letters[1..]);
    }
  }

  /** Guessing only letters of the word never costs an attempt. */
  lemma {:induction false} PlayPresentLetters(r: Round, letters: seq<char>)
    requires forall i :: 0 <= i < |letters| ==> ToLower(letters[i]) in r.word
    ensures r.Play(letters).attempts == r.attempts
    decreases |letters|
  {
    if letters != [] {
      var next := r.Step(letters[0]).0;
      assert forall i :: 0 <= i < |letters[1..]| ==> letters[1..][i] == letters[i + 1];
      PlayPresentLetters(next, letters[1..]);
    }
  }

  /** Guesses that, with the earlier ones, cover every character of the word
      win the round, whatever wrong letters are among them. */
  lemma CoveringGuessesWin(r: Round, letters: seq<char>)
    requires forall i :: 0 <= i < |r.word| ==> r.word[i] in r.guessed + LowerSet(letters)
    ensures r.Play(letters).IsWon()
  {
    PlayRecords(r, letters);
  }

  /** Guessing every character of the word, and only such letters, wins the
      round without spending an attempt. */
  lemma GuessingTheWordWins(r: Round, letters: seq<char>)
    requires forall i :: 0 <= i < |r.word| ==> r.word[i] in r.guessed + LowerSet(letters)
    requires forall i :: 0 <= i < |letters| ==> ToLower(letters[i]) in r.word
    ensures r.Play(letters).IsWon()
    ensures r.Play(letters).attempts == r.attempts
  {
    CoveringGuessesWin(r, letters);
    PlayPresentLetters(r, letters);
  }

  /** A won round shows the whole word; a round not yet won shows '_' where
      an unguessed character of the word stands. */
  lemma WonShowsWord(r: Round)
    ensures r.IsWon() ==> r.DisplayWord() == SpaceJoin(r.word)
    ensures !r.IsWon() ==>
      exists i :: 0 <= i < |r.word| && r.word[i] !in r.guessed && r.DisplayWord()[2 * i] == '_'
  {
    var s, t := r.DisplayWord(), SpaceJoin(r.word);
    if r.IsWon() {
      assert forall k :: 0 <= k < |s| && k % 2 == 0 ==> s[k] == r.word[k / 2] == t[k];
    }
  }

  /** Every guessed letter is shown by `display_guesses`. */
  lemma DisplayGuessesShowsEach(r: Round, c: char)
    requires c in r.guessed
    ensures exists i :: 0 <= i < |r.guessed| && r.DisplayGuesses()[|GuessedPrefix| + 2 * i] == ToUpper(c)
  {
    var letters := Ascending(r.guessed);
    var i :| 0 <= i < |letters| && letters[i] == c;
    assert r.DisplayGuesses()[|GuessedPrefix| + 2 * i] == ToUpper(c);
  }

  /** No letter is shown twice by `display_guesses`, as long as no guess is
      upper case (which `guess` ensures). */
  lemma DisplayGuessesNoRepeat(r: Round)
    requires forall d :: d in r.guessed ==> !IsUpper(d)
    ensures forall i, j :: 0 <= i < j < |r.guessed| ==>
      r.DisplayGuesses()[|GuessedPrefix| + 2 * i] != r.DisplayGuesses()[|GuessedPrefix| + 2 * j]
  {
    var letters, s := Ascending(r.guessed), r.DisplayGuesses();
    assert forall k :: 0 <= k < |letters| ==> letters[k] in r.guessed;
    ShownLettersDistinct(s, |GuessedPrefix|, letters);
  }

  /** Letters shown upper-cased at the even offsets after position `n` are
      distinct when the letters are strictly ascending and none is upper case. */
  lemma ShownLettersDistinct(s: string, n: nat, letters: seq<char>)
    requires n + JoinedLength(|letters|) <= |s|
    requires forall i :: 0 <= i < |letters| ==> s[n + 2 * i] == ToUpper(letters[i])
    requires forall i, j :: 0 <= i < j < |letters| ==> letters[i] < letters[j]
    requires forall k :: 0 <= k < |letters| ==> !IsUpper(letters[k])
    ensures forall i, j :: 0 <= i < j < |letters| ==> s[n + 2 * i] != s[n + 2 * j]
  {
    forall i, j | 0 <= i < j < |letters|
      ensures s[n + 2 * i] != s[n + 2 * j]
    {
      ToUpperInjective(letters[i], letters[j]);
    }
  }

  /** The engine object: the word pool, the budget and the current round,
      updated in place by `reset` and `guess`. */
  class HangmanGame {
    var words: seq<string>
    const maxAttempts: int
    var word: string
    var guessed: set<char>
    var attempts: int

    /** The abstraction function of the class: the current round as a value. */
    function State(): Round
      reads this
    {
      Round(word, guessed, attempts)
    }

    ghost predicate Valid()
      reads this
    {
      State().Consistent(maxAttempts)
    }

    /** `__init__`: store the pool and the budget, then start a round. */
    constructor (words: seq<string>, maxAttempts: int := 6)
      ensures this.words == words && this.maxAttempts == maxAttempts
      ensures Valid()
      ensures guessed == {} && attempts == maxAttempts
      ensures words == [] ==> word == ""
      ensures words != [] ==> exists i :: 0 <= i < |words| && word == Lower(words[i])
    {
      this.words := words;
      this.maxAttempts := maxAttempts;
      new;
      Reset();
    }

    /** `reset`: draw a word from the pool (any element; uniformity is not
        modelled), lower-case it, and clear the round. */
    method Reset()
      modifies this
      ensures Valid() && attempts <= maxAttempts
      ensures words == old(words)
      ensures guessed == {} && attempts == maxAttempts
      ensures words == [] ==> word == ""
      ensures words != [] ==> exists i :: 0 <= i < |words| && word == Lower(words[i])
    {
      if words == [] {
        word := "";
      } else {
        var i :| 0 <= i < |words|;
        word := Lower(words[i]);
      }
      guessed := {};
      attempts := maxAttempts;
      assert State().WrongGuesses() == {};
    }

    /** `guess`: lower-case the letter; a letter guessed before is reported
        as "already"; otherwise it is recorded, and it costs an attempt and
        is "wrong" when it is not in the word, or is "correct". */
    method Guess(letter: char) returns (outcome: Outcome)
      modifies this
      ensures (State(), outcome) == old(State()).Step(letter)
      ensures old(Valid()) ==> Valid() && maxAttempts - |guessed| <= attempts <= maxAttempts
      ensures words == old(words) && word == old(word)
      ensures old(guessed) <= guessed && attempts <= old(attempts)
      ensures outcome == Already <==> ToLower(letter) in old(guessed)
      ensures outcome == Already ==> guessed == old(guessed) && attempts == old(attempts)
      ensures outcome == Wrong <==> ToLower(letter) !in old(guessed) && ToLower(letter) !in word
      ensures outcome == Wrong ==> guessed == old(guessed) + {ToLower(letter)} && attempts == old(attempts) - 1
      ensures outcome == Correct ==> guessed == old(guessed) + {ToLower(letter)} && attempts == old(attempts)
    {
      if Valid() {
        StepKeepsConsistent(State(), maxAttempts, letter);
        ConsistentBounds(State().Step(letter).0, maxAttempts);
      }
      var c := ToLower(letter);
      if c in guessed {
        return Already;
      }
      guessed := guessed + {c};
      if c !in word {
        attempts := attempts - 1;
        return Wrong;
      }
      return Correct;
    }
  }
}
