/** The board: which line each slot renders, and with which props. */
module Board {
  import opened Slots

  /** What the board hands to one `Line`: the text to show, whether this is
      the line being typed into, and whether it is coloured. */
  datatype Row = Row(guess: string, isCurrent: bool, isFinal: bool)

  /** `guesses.map(...)`: the first empty slot shows the current input, a
      filled slot shows its word and is final, any other slot is blank. */
  function Project(guesses: seq<Slot>, currentGuess: string): (rows: seq<Row>)
    ensures |rows| == |guesses|
  {
    var active := FirstEmpty(guesses);
    seq(|guesses|, i requires 0 <= i < |guesses| =>
      var isCurrent := i == active;
      Row(if isCurrent then currentGuess else if guesses[i].Some? then guesses[i].value else "",
          isCurrent,
          !isCurrent && guesses[i].Some?))
  }

  /** Row by row: exactly the first empty slot is current and shows the
      input uncoloured; filled slots are final and show their word; later
      empty slots are blank and uncoloured; with no empty slot, no row is
      current. */
  lemma ProjectRows(guesses: seq<Slot>, currentGuess: string)
    ensures var rows := Project(guesses, currentGuess);
      && (forall i :: 0 <= i < |rows| ==> (rows[i].isCurrent <==> i == FirstEmpty(guesses)))
      && (forall i :: 0 <= i < |rows| && rows[i].isCurrent ==> rows[i].guess == currentGuess && !rows[i].isFinal)
      && (forall i :: 0 <= i < |rows| && guesses[i].Some? ==> rows[i] == Row(guesses[i].value, false, true))
      && (forall i :: 0 <= i < |rows| && guesses[i].None? && !rows[i].isCurrent ==> rows[i] == Row("", false, false))
      && ((exists i :: 0 <= i < |rows| && rows[i].isCurrent) <==> (exists i :: 0 <= i < |guesses| && guesses[i].None?))
  {
  }

  /** For contiguous slots with `n` of them filled: rows before `n` are
      final, row `n` (if any) is the one being typed, rows after it are
      blank. */
  lemma ProjectContiguous(guesses: seq<Slot>, currentGuess: string)
    requires Contiguous(guesses)
    ensures var rows, n := Project(guesses, currentGuess), Filled(guesses);
      && (forall i :: 0 <= i < n ==> guesses[i].Some? && rows[i] == Row(guesses[i].value, false, true))
      && (n < |guesses| ==> rows[n] == Row(currentGuess, true, false))
      && (forall i :: n < i < |guesses| ==> rows[i] == Row("", false, false))
  {
    ContiguousPrefix(guesses);
    ContiguousFirstEmpty(guesses);
  }
}
