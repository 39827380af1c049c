/** The game session: its state, the keystroke transition, and the object
    that holds the state and processes one key at a time. */
module Session {
  import opened Slots
  import opened Tiles
  import opened Board

  /** The four pieces of session state. */
  datatype State = State(solution: string, guesses: seq<Slot>, currentGuess: string, isGameOver: bool)

  /** The solution before the word list has been fetched. */
  const PLACEHOLDER: string := "hello"

  const ENTER: string := "Enter"
  const BACKSPACE: string := "Backspace"

  /** The state a session starts in: it satisfies the invariant, with no
      slot filled and the first slot the one being typed into. */
  function Init(): (r: State)
    ensures Inv(r) && !r.isGameOver
    ensures Filled(r.guesses) == 0 && FirstEmpty(r.guesses) == 0
  {
    var r := State(PLACEHOLDER, seq(ROWS, _ => None), "", false);
    assert r.guesses[0].None?;
    FilledNone(r.guesses);
    r
  }

  /** A key name matching `/^[a-z]{1}$/`: a one-character key whose
      character is a lower-case letter. */
  function IsLetter(key: string): (r: bool)
    ensures r <==> |key| == 1 && Lowercase(key)
  {
    |key| == 1 && 'a' <= key[0] <= 'z'
  }

  /** Every character is a lower-case letter. */
  predicate Lowercase(w: string) {
    forall i :: 0 <= i < |w| ==> 'a' <= w[i] <= 'z'
  }

  /** `slice(0, -1)`: the string without its last character; the empty
      string stays empty. */
  function DropLast(s: string): (r: string)
    ensures |s| == 0 ==> r == ""
    ensures |s| > 0 ==> r + [s[|s| - 1]] == s
  {
    if |s| == 0 then s else s[..|s| - 1]
  }

  /** Submitting the current input: it goes into the first empty slot (no
      slot when the board is full), the input is cleared, and the game ends
      when it is the solution. */
  function Submit(s: State): (r: State)
    ensures r.solution == s.solution && r.currentGuess == ""
    ensures r.isGameOver <==> s.isGameOver || s.currentGuess == s.solution
    ensures |r.guesses| == |s.guesses|
    ensures forall i :: 0 <= i < |s.guesses| && i != FirstEmpty(s.guesses) ==> r.guesses[i] == s.guesses[i]
    ensures FirstEmpty(s.guesses) != -1 ==> r.guesses[FirstEmpty(s.guesses)] == Some(s.currentGuess)
    ensures Filled(r.guesses) == Filled(s.guesses) + (if FirstEmpty(s.guesses) == -1 then 0 else 1)
  {
    var k := FirstEmpty(s.guesses);
    if k == -1 then
      s.(currentGuess := "",
         isGameOver := if s.currentGuess == s.solution then true else s.isGameOver)
    else
      FilledFill(s.guesses, k, s.currentGuess);
      s.(guesses := s.guesses[k := Some(s.currentGuess)],
         currentGuess := "",
         isGameOver := if s.currentGuess == s.solution then true else s.isGameOver)
  }

  /** The effect of one key, rule by rule: nothing after game over; Enter
      submits a full-length input and ignores any other; Backspace drops the
      last character; a single letter is appended while there is room;
      every other key is ignored. No key changes the solution, and every key
      keeps the invariant. */
  function Step(s: State, key: string): (r: State)
    ensures s.isGameOver ==> r == s
    ensures r.solution == s.solution
    ensures Inv(s) ==> Inv(r)
  {
    if s.isGameOver then s
    else if key == ENTER then
      if |s.currentGuess| == WORD_LENGTH then Submit(s) else s
    else if key == BACKSPACE then s.(currentGuess := DropLast(s.currentGuess))
    else if |s.currentGuess| < WORD_LENGTH && IsLetter(key) then s.(currentGuess := s.currentGuess + key)
    else s
  }

  /** The state after a sequence of keys, processed one after another. */
  function Run(s: State, keys: seq<string>): State
    decreases |keys|
  {
    if |keys| == 0 then s else Run(Step(s, keys[0]), keys[1..])
  }

  /** What holds in every reachable state: six contiguous slots, each filled
      one with a five-letter lower-case word, and an input of at most five
      lower-case letters. */
  predicate Inv(s: State) {
    && |s.guesses| == ROWS
    && Contiguous(s.guesses)
    && (forall i :: 0 <= i < |s.guesses| && s.guesses[i].Some? ==>
          |s.guesses[i].value| == WORD_LENGTH && Lowercase(s.guesses[i].value))
    && |s.currentGuess| <= WORD_LENGTH
    && Lowercase(s.currentGuess)
  }

  /** Any sequence of keys preserves the invariant. */
  lemma {:induction false} RunInv(s: State, keys: seq<string>)
    requires Inv(s)
    ensures Inv(Run(s, keys))
    decreases |keys|
  {
    if |keys| > 0 {
      RunInv(Step(s, keys[0]), keys[1..]);
    }
  }

  /** From the start, whatever keys are pressed, the input holds at most
      five characters and the slots stay contiguous. */
  lemma ReachableBounds(keys: seq<string>)
    ensures |Run(Init(), keys).currentGuess| <= WORD_LENGTH
    ensures Contiguous(Run(Init(), keys).guesses)
  {
    RunInv(Init(), keys);
  }

  /** Enter with an input that is not five characters long changes nothing. */
  lemma EnterWrongLength(s: State)
    requires |s.currentGuess| != WORD_LENGTH
    ensures Step(s, ENTER) == s
  {
  }

  /** Enter with a full-length input while a slot is free: the input goes
      into the first empty slot, no other slot changes, one more slot is
      filled, the input is cleared, contiguity is kept, and the game ends
      exactly when the input is the solution. */
  lemma EnterSubmits(s: State)
    requires !s.isGameOver && |s.currentGuess| == WORD_LENGTH
    requires FirstEmpty(s.guesses) != -1
    ensures var t, k := Step(s, ENTER), FirstEmpty(s.guesses);
      && |t.guesses| == |s.guesses|
      && t.guesses[k] == Some(s.currentGuess)
      && (forall i :: 0 <= i < |s.guesses| && i != k ==> t.guesses[i] == s.guesses[i])
      && Filled(t.guesses) == Filled(s.guesses) + 1
      && t.currentGuess == ""
      && (Contiguous(s.guesses) ==> Contiguous(t.guesses))
      && t.solution == s.solution
      && (t.isGameOver <==> s.currentGuess == s.solution)
  {
  }

  /** Enter with a full-length input when every slot is full: no slot
      changes, yet the input is cleared and the game can still end. */
  lemma EnterFullBoard(s: State)
    requires !s.isGameOver && |s.currentGuess| == WORD_LENGTH
    requires FirstEmpty(s.guesses) == -1
    ensures var t := Step(s, ENTER);
      t == s.(currentGuess := "", isGameOver := s.currentGuess == s.solution)
  {
  }

  /** After game over no sequence of keys changes anything; in particular
      the game stays over. */
  lemma {:induction false} GameOverFreezesRun(s: State, keys: seq<string>)
    requires s.isGameOver
    ensures Run(s, keys) == s
    decreases |keys|
  {
    if |keys| > 0 {
      GameOverFreezesRun(s, keys[1..]);
    }
  }

  /** A key ends the game exactly when it is Enter on a full-length input
      equal to the solution. */
  lemma GameOverExactly(s: State, key: string)
    requires !s.isGameOver
    ensures Step(s, key).isGameOver <==>
              key == ENTER && |s.currentGuess| == WORD_LENGTH && s.currentGuess == s.solution
  {
  }

  /** Backspace removes exactly the last character of the input and touches
      nothing else; on an empty input it changes nothing. */
  lemma BackspaceDrops(s: State)
    requires !s.isGameOver
    ensures var t := Step(s, BACKSPACE);
      && t.solution == s.solution && t.guesses == s.guesses && t.isGameOver == s.isGameOver
      && (|s.currentGuess| == 0 ==> t == s)
      && (|s.currentGuess| > 0 ==> t.currentGuess + [s.currentGuess[|s.currentGuess| - 1]] == s.currentGuess)
  {
  }

  /** Any other key changes the state exactly when it is a single letter and
      the input has room, and then it only appends that letter. */
  lemma OtherKeys(s: State, key: string)
    requires !s.isGameOver && key != ENTER && key != BACKSPACE
    ensures Step(s, key) != s <==> IsLetter(key) && |s.currentGuess| < WORD_LENGTH
    ensures Step(s, key) != s ==> Step(s, key) == s.(currentGuess := s.currentGuess + key)
  {
  }

  /** A sixth letter in a row is rejected. */
  lemma SixLetters()
    ensures Run(Init(), ["a", "b", "c", "d", "e", "f"]).currentGuess == "abcde"
  {
  }

  /** Enter on "ab" leaves the slots as they were. */
  lemma EnterShortInput()
    ensures Run(Init(), ["a", "b", ENTER]).guesses == Init().guesses
  {
    var s1 := Step(Init(), "a");
    var s2 := Step(s1, "b");
    assert s2 == Init().(currentGuess := "ab");
    assert Run(Init(), ["a", "b", ENTER]) == Run(s1, ["b", ENTER]);
    assert ["b", ENTER][1..] == [ENTER];
    assert Run(s1, ["b", ENTER]) == Run(s2, [ENTER]);
    EnterWrongLength(s2);
  }

  /** Backspace on an empty input leaves it empty. */
  lemma BackspaceEmpty()
    ensures Run(Init(), [BACKSPACE]) == Init()
  {
  }

  /** Typing and submitting the placeholder solution ends the game with the
      word in the first slot, coloured all-correct. */
  lemma WinWithPlaceholder()
    ensures var t := Run(Init(), ["h", "e", "l", "l", "o", ENTER]);
      && |t.guesses| == ROWS
      && t.isGameOver
      && t.guesses[0] == Some(PLACEHOLDER)
      && forall i :: 0 <= i < WORD_LENGTH ==> Classify(t.guesses[0].value, t.solution, i) == Correct
  {
    var s1 := Step(Init(), "h");
    var s2 := Step(s1, "e");
    var s3 := Step(s2, "l");
    var s4 := Step(s3, "l");
    var s5 := Step(s4, "o");
    assert s5 == Init().(currentGuess := PLACEHOLDER);
    assert Run(Init(), ["h", "e", "l", "l", "o", ENTER]) == Run(s1, ["e", "l", "l", "o", ENTER]);
    assert ["e", "l", "l", "o", ENTER][1..] == ["l", "l", "o", ENTER];
    assert Run(s1, ["e", "l", "l", "o", ENTER]) == Run(s2, ["l", "l", "o", ENTER]);
    assert ["l", "l", "o", ENTER][1..] == ["l", "o", ENTER];
    assert Run(s2, ["l", "l", "o", ENTER]) == Run(s3, ["l", "o", ENTER]);
    assert ["l", "o", ENTER][1..] == ["o", ENTER];
    assert Run(s3, ["l", "o", ENTER]) == Run(s4, ["o", ENTER]);
    assert ["o", ENTER][1..] == [ENTER];
    assert Run(s4, ["o", ENTER]) == Run(s5, [ENTER]);
    EnterSubmits(s5);
    AllCorrectIff(PLACEHOLDER, PLACEHOLDER);
  }

  /** The board of any state that keeps the invariant, which includes every
      `GameSession` state whatever keys and solution updates came before:
      the first `Filled` rows are final and show their slot's word, which
      has five letters (so `Line` colours every tile of them as
      `ClassifyLetter` describes); the next row, if any, shows the input;
      the rest are blank. */
  lemma ReachableBoard(t: State)
    requires Inv(t)
    ensures var rows, n := Project(t.guesses, t.currentGuess), Filled(t.guesses);
      && |rows| == ROWS
      && (forall i :: 0 <= i < n ==>
            t.guesses[i].Some? && rows[i] == Row(t.guesses[i].value, false, true) && |rows[i].guess| == WORD_LENGTH)
      && (n < ROWS ==> rows[n] == Row(t.currentGuess, true, false))
      && (forall i :: n < i < ROWS ==> rows[i] == Row("", false, false))
  {
    ProjectContiguous(t.guesses, t.currentGuess);
  }

  /** The session object: the four pieces of state the game keeps, updated
      in place by each keystroke. */
  class GameSession {
    var solution: string
    var guesses: array<Slot>
    var currentGuess: string
    var isGameOver: bool

    /** The session's state as a value. */
    ghost function Abs(): State
      reads this, guesses
    {
      State(solution, guesses[..], currentGuess, isGameOver)
    }

    ghost predicate Valid()
      reads this, guesses
    {
      Inv(Abs())
    }

    /** A new session: placeholder solution, six empty slots, no input. */
    constructor ()
      ensures Valid() && fresh(guesses)
      ensures Abs() == Init()
    {
      solution := PLACEHOLDER;
      guesses := new Slot[ROWS](_ => None);
      currentGuess := "";
      isGameOver := false;
      new;
      assert guesses[..] == seq(ROWS, _ => None);
    }

    /** `guesses.findIndex(val => val == null)`. */
    method FirstEmptyIndex() returns (k: int)
      ensures -1 <= k < guesses.Length
      ensures k == -1 <==> forall j :: 0 <= j < guesses.Length ==> guesses[j].Some?
      ensures 0 <= k ==> guesses[k].None? && forall j :: 0 <= j < k ==> guesses[j].Some?
      ensures k == FirstEmpty(guesses[..])
    {
      k := 0;
      while k < guesses.Length && guesses[k].Some?
        invariant 0 <= k <= guesses.Length
        invariant forall j :: 0 <= j < k ==> guesses[j].Some?
      {
        k := k + 1;
      }
      if k == guesses.Length {
        k := -1;
      }
    }

    /** One keystroke, in the order the listener tests it. `typed` is the
        input as the listener saw it when the key arrived: after a
        successful Enter it is still five characters long, so control falls
        through to the length test and stops there. */
    method HandleKey(key: string)
      requires Valid()
      modifies this, guesses
      ensures Valid() && guesses == old(guesses)
      ensures Abs() == Step(old(Abs()), key)
    {
      ghost var before := Abs();
      assert Inv(Step(before, key));
      if isGameOver {
        return;
      }
      var typed := currentGuess;
      if key == ENTER {
        if |typed| != WORD_LENGTH {
          return;
        }
        var k := FirstEmptyIndex();
        if k != -1 {
          guesses[k] := Some(typed);
        }
        currentGuess := "";
        if solution == typed {
          isGameOver := true;
        }
      }
      if key == BACKSPACE {
        currentGuess := DropLast(typed);
        return;
      }
      if |typed| >= WORD_LENGTH {
        return;
      }
      if IsLetter(key) {
        currentGuess := currentGuess + key;
      }
    }

    /** The fetched word arriving: it replaces the solution and nothing
        else. */
    method ResolveSolution(word: string)
      requires Valid()
      modifies this
      ensures Valid() && guesses == old(guesses)
      ensures Abs() == old(Abs()).(solution := word)
    {
      solution := word;
    }
  }
}
