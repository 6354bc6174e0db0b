/** Rounds played against the engine through its contracts only. */
module HangmanClient {
  import opened CaseMapping
  import opened Hangman
  import Rendering

  /** A pool of one word and the default budget of six: a correct and a
      wrong guess, then the rest of the word wins the round. */
  method WinningRound()
  {
    var game := new HangmanGame(["cat"]);
    assert game.word == "cat" by {
      assert forall i :: 0 <= i < 3 ==> !IsUpper("cat"[i]);
      assert Lower("cat") == "cat";
    }
    var o := game.Guess('c');
    assert o == Correct;
    o := game.Guess('z');
    assert o == Wrong && game.attempts == 5;
    FinishWord(game);
  }

  /** Guessing 'a' and 't' after 'c' wins "cat" without spending an attempt. */
  method FinishWord(game: HangmanGame)
    requires game.word == "cat" && 'c' in game.guessed
    requires 'a' !in game.guessed && 't' !in game.guessed
    modifies game
    ensures game.State().IsWon() && game.attempts == old(game.attempts)
  {
    var o := game.Guess('a');
    assert o == Correct;
    o := game.Guess('t');
    assert o == Correct;
    assert game.word == ['c', 'a', 't'];
    ShowWord(game);
  }

  /** Once 'c', 'a' and 't' are guessed, "cat" is shown in full. */
  method ShowWord(game: HangmanGame)
    requires game.word == "cat" && {'c', 'a', 't'} <= game.guessed
  {
    var shown := game.State().DisplayWord();
    assert shown == "c a t" by {
      assert |shown| == 5;
      assert shown[0] == 'c' && shown[2] == 'a' && shown[4] == 't';
      assert shown[1] == ' ' && shown[3] == ' ';
    }
  }

  /** A budget of two: a wrong guess, the same letter again in the other
      case, which costs nothing, and a second wrong guess that loses. */
  method LosingRound()
  {
    var game := new HangmanGame(["dog"], 2);
    var o := game.Guess('y');
    assert o == Wrong && game.attempts == 1 && !game.State().IsLost();
    assert ToLower('Y') == 'y';
    o := game.Guess('Y');
    assert o == Already && game.attempts == 1;
    LoseRound(game);
  }

  /** With one attempt left, a letter outside the word loses the round, and
      the guesses are listed in ascending order, upper-cased. */
  method LoseRound(game: HangmanGame)
    requires game.word == "dog" && game.guessed == {'y'} && game.attempts == 1
    modifies game
  {
    var o := game.Guess('x');
    assert o == Wrong && game.attempts == 0 && game.State().IsLost();
    ShowGuesses(game);
  }

  /** The guesses 'y' and 'x' are listed as "X Y". */
  method ShowGuesses(game: HangmanGame)
    requires game.guessed == {'x', 'y'}
  {
    var letters := Rendering.Ascending(game.guessed);
    assert |letters| == 2;
    assert letters[0] == 'x' && letters[1] == 'y' by {
      assert letters[0] < letters[1];
      assert letters[0] in game.guessed && letters[1] in game.guessed;
    }
    var shown := game.State().DisplayGuesses();
    assert shown == "Guessed: X Y" by {
      assert |shown| == 12;
      assert shown[..9] == "Guessed: ";
      assert shown[9] == 'X' && shown[10] == ' ' && shown[11] == 'Y';
    }
  }
}
