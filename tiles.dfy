/** One line of the board: five tiles, each showing the character at its
    position and, on a finalised line, coloured against the solution. */
module Tiles {
  import opened Slots

  /** Tiles per line, and the length a guess must have to be submitted. */
  const WORD_LENGTH: nat := 5

  /** The colour of a tile: `Plain` is the bare `tile` class; the other three
      are `correct`, `close` and `incorrect`. */
  datatype Mark = Plain | Correct | Close | Incorrect

  /** A tile: the character it shows (none past the end of the word) and its
      colour. */
  datatype Tile = Tile(ch: Option<char>, mark: Mark)

  /** Indexing a JavaScript string: the character at `i`, or `undefined` past
      the end. */
  function CharAt(s: string, i: nat): (c: Option<char>)
    ensures c.Some? <==> i < |s|
    ensures c.Some? ==> c.value == s[i]
  {
    if i < |s| then Some(s[i]) else None
  }

  /** The text `undefined` turns into when it is passed to `String.includes`. */
  const UNDEFINED_TEXT: string := "undefined"

  /** `p` occurs in `s` as a contiguous substring. */
  predicate IsSubstring(p: string, s: string) {
    exists k | 0 <= k <= |s| - |p| :: p <= s[k..]
  }

  /** `solution.includes(c)`: plain membership for a character; an
      `undefined` argument is converted to the text "undefined" and searched
      for as a substring, so it is never found in a solution shorter than
      that text. */
  function Includes(solution: string, c: Option<char>): (r: bool)
    ensures c.Some? ==> (r <==> exists k :: 0 <= k < |solution| && solution[k] == c.value)
    ensures c.None? && |solution| < |UNDEFINED_TEXT| ==> !r
  {
    match c
    case Some(ch) => ch in solution
    case None => IsSubstring(UNDEFINED_TEXT, solution)
  }

  /** The colour of position `i` of a finalised guess: exact match first,
      then membership anywhere in the solution (duplicates are not counted),
      otherwise absent. */
  function Classify(guess: string, solution: string, i: nat): (m: Mark)
    ensures m != Plain
  {
    var c := CharAt(guess, i);
    if c == CharAt(solution, i) then Correct
    else if Includes(solution, c) then Close
    else Incorrect
  }

  /** The `Line` component's loop: one tile per position, coloured only when
      the line is final. */
  method Line(guess: string, isFinal: bool, solution: string) returns (tiles: seq<Tile>)
    ensures |tiles| == WORD_LENGTH
    ensures forall i :: 0 <= i < |tiles| ==> tiles[i].ch == CharAt(guess, i)
    ensures forall i :: 0 <= i < |tiles| ==> (tiles[i].mark == Plain <==> !isFinal)
    ensures isFinal ==> forall i :: 0 <= i < |tiles| ==> tiles[i].mark == Classify(guess, solution, i)
  {
    tiles := [];
    for i := 0 to WORD_LENGTH
      invariant |tiles| == i
      invariant forall j :: 0 <= j < i ==> tiles[j].ch == CharAt(guess, j)
      invariant forall j :: 0 <= j < i ==> tiles[j].mark == (if isFinal then Classify(guess, solution, j) else Plain)
    {
      var ch := CharAt(guess, i);
      var mark := Plain;
      if isFinal {
        if ch == CharAt(solution, i) {
          mark := Correct;
        } else if Includes(solution, ch) {
          mark := Close;
        } else {
          mark := Incorrect;
        }
      }
      tiles := tiles + [Tile(ch, mark)];
    }
  }

  /** For a position inside the guess, exactly one of the three colours
      applies, and which one is decided by the letter alone: exact, present
      elsewhere, or absent. */
  lemma ClassifyLetter(guess: string, solution: string, i: nat)
    requires i < |guess|
    ensures Classify(guess, solution, i) == Correct <==> i < |solution| && guess[i] == solution[i]
    ensures Classify(guess, solution, i) == Close <==>
              !(i < |solution| && guess[i] == solution[i]) && guess[i] in solution
    ensures Classify(guess, solution, i) == Incorrect <==> guess[i] !in solution
  {
  }

  /** A guess of the solution's length is coloured all-correct exactly when
      it is the solution. */
  lemma AllCorrectIff(guess: string, solution: string)
    requires |guess| == WORD_LENGTH && |solution| == WORD_LENGTH
    ensures (forall i :: 0 <= i < WORD_LENGTH ==> Classify(guess, solution, i) == Correct) <==> guess == solution
  {
    if forall i :: 0 <= i < WORD_LENGTH ==> Classify(guess, solution, i) == Correct {
      forall i | 0 <= i < WORD_LENGTH
        ensures guess[i] == solution[i]
      {
        ClassifyLetter(guess, solution, i);
      }
    }
  }

  /** "world" against "hello": incorrect, close, incorrect, correct, incorrect. */
  lemma WorldAgainstHello()
    ensures Classify("world", "hello", 0) == Incorrect
    ensures Classify("world", "hello", 1) == Close
    ensures Classify("world", "hello", 2) == Incorrect
    ensures Classify("world", "hello", 3) == Correct
    ensures Classify("world", "hello", 4) == Incorrect
  {
  }
}
