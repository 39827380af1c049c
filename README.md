# Wordle game logic in Dafny

This is a model of the game logic of a browser word-guessing game written in React. The player has six tries to guess a hidden five-letter word. The model has two parts.

- **The keystroke state machine** (`handleType` in `src/App.jsx`). A session holds four values: the solution, six guess slots, the input being typed, and a game-over flag. Each key moves the session to its next state. Nothing happens after game over. `Enter` submits a five-character input. `Backspace` drops the last character. A single lower-case letter is appended while the input is shorter than five.
- **The render model**. The board decides the role of each slot: the first empty slot is the line being typed, filled slots are final, and later empty slots are blank. `Line` colours each tile of a final line as correct (exact match), close (the letter occurs anywhere in the solution, with no counting of duplicates) or incorrect.

Files, one module each:

- `slots.dfy` (`Slots`): slots as `Option<string>`, with `FirstEmpty` (the source's `findIndex`), a filled count and contiguity.
- `tiles.dfy` (`Tiles`): the per-tile classification `Classify` and the `Line` loop as a method.
- `board.dfy` (`Board`): the projection from slots and input to the props of each row.
- `session.dfy` (`Session`): the session state as a value, with its rule-by-rule transition `Step` and the key-sequence fold `Run`. Lemmas about them. The class `GameSession`, whose fields are the four pieces of state.

`GameSession.HandleKey` follows the listener's own control flow. It takes the input as the listener captured it, and a successful `Enter` falls through to the later tests (there is no `return` after the submit). The method is proved to produce exactly `Step`'s state, which applies each rule separately. So the fall-through only submits, and this is a proved result, not an assumption. The class invariant `Valid` is the reachable-state invariant `Inv`: six contiguous slots, every filled slot a five-letter lower-case word, and an input of at most five lower-case letters.

Two points follow the code rather than the game's intended design:

- Letters can still be typed after all six slots are full, because the append branch does not look for a free slot.
- `Enter` on a full board writes no slot. It still clears the input and can still end the game.

The solution is read as any string: the code never checks that it is a five-letter word. Past the end of a word, JavaScript indexing gives `undefined`, so a tile's character is an `Option<char>`. `includes(undefined)` searches the solution for the text "undefined", and `Tiles.Includes` models that. For five-letter guesses none of this matters, and `Tiles.ClassifyLetter` states the plain letter rule.

## Model

| member | source | states |
|---|---|---|
| Slots.FirstEmpty | src/App.jsx:29 | The result is -1 exactly when every slot is filled. Otherwise it is an empty slot with every earlier slot filled. |
| Slots.FilledNone | src/App.jsx:11 | A board of empty slots has none filled. |
| Slots.FilledFill | src/App.jsx:28-29 | Writing a word into an empty slot raises the filled count by exactly one. |
| Slots.ContiguousPrefix | src/App.jsx:28-29 | In contiguous slots, a slot is filled exactly when its index is below the filled count. |
| Slots.ContiguousFirstEmpty | src/App.jsx:86 | In contiguous slots, `findIndex` returns the filled count, or -1 when all six are filled. |
| Tiles.CharAt | src/App.jsx:107 | The tile character is present exactly when the position is inside the word, and then it is the word's character there. Past the end it is `undefined`. |
| Tiles.Includes | src/App.jsx:115 | For a character, `includes` holds exactly when the character occurs at some position of the solution. For `undefined` the result is false on any solution shorter than nine characters, such as any five-letter word. |
| Tiles.Classify | src/App.jsx:113-119 | A final tile always gets one of the three colours, never the uncoloured tile. |
| Tiles.Line | src/App.jsx:102-128 | There are exactly five tiles. Tile i shows the guess's character at i, or nothing past its end. A tile is uncoloured exactly when the line is not final. On a final line tile i has the colour `Classify` gives position i. |
| Tiles.ClassifyLetter | src/App.jsx:113-119 | A letter inside the guess is correct exactly when it equals the solution's letter at that position. It is close exactly when it is not correct but occurs in the solution. It is incorrect exactly when it does not occur in the solution. |
| Tiles.AllCorrectIff | src/App.jsx:111-119 | A five-letter guess against a five-letter solution is all-correct exactly when the two are equal. |
| Tiles.WorldAgainstHello | src/App.jsx:113-119 | "world" against "hello" gives incorrect, close, incorrect, correct, incorrect. |
| Board.Project | src/App.jsx:84-91 | There is one row per slot. |
| Board.ProjectRows | src/App.jsx:84-91 | Exactly the first empty slot is the current row. It shows the input and is not final. A filled slot is final and shows its word. Any other empty slot is blank and not final. Some row is current exactly when some slot is empty. |
| Board.ProjectContiguous | src/App.jsx:84-91 | For contiguous slots with n filled: rows below n are final, row n (if it exists) is current and shows the input, and later rows are blank. |
| Session.Init | src/App.jsx:10-13 | The initial state (placeholder "hello", six empty slots, empty input) satisfies the invariant. The game is not over, no slot is filled, and slot 0 is the first empty one. |
| Session.IsLetter | src/App.jsx:50 | A key matches `/^[a-z]{1}$/` exactly when it is one character long and that character is a lower-case letter. |
| Session.DropLast | src/App.jsx:41 | `slice(0, -1)` gives "" for "". Otherwise it gives the string that, with the last character appended back, is the original. |
| Session.Submit | src/App.jsx:28-36 | The solution is unchanged and the input is cleared. The game is over exactly when it already was or the input equals the solution. The slot count is unchanged. Every slot other than the first empty one is unchanged, and the first empty one (if any) now holds the input. The filled count rises by one when a slot was free and stays the same on a full board. |
| Session.Step | src/App.jsx:19-54 | After game over the state is unchanged. No key changes the solution. Every key keeps the invariant: six contiguous slots, filled slots are five-letter lower-case words, and the input has at most five lower-case letters. The other rules are stated by EnterWrongLength, EnterSubmits, EnterFullBoard, BackspaceDrops, OtherKeys and GameOverExactly. |
| Session.RunInv | src/App.jsx:19-54 | Any key sequence keeps the invariant. |
| Session.ReachableBounds | src/App.jsx:41-53 | From the start, for any key sequence, the input has at most 5 characters and the slots stay contiguous. |
| Session.EnterWrongLength | src/App.jsx:24-27 | `Enter` with an input whose length is not 5 changes no field. |
| Session.EnterSubmits | src/App.jsx:28-36 | On a valid `Enter` with a free slot: the input goes into the first empty slot, no other slot changes, the filled count rises by one, the input becomes empty, contiguity is kept, the solution is unchanged, and the game ends exactly when the input equals the solution. |
| Session.EnterFullBoard | src/App.jsx:29-36 | On a valid `Enter` with every slot full: no slot changes, the input is cleared, and the game ends exactly when the input equals the solution. |
| Session.GameOverFreezesRun | src/App.jsx:20-22 | Once the game is over, any key sequence leaves the state unchanged. In particular, game over is never reset. |
| Session.GameOverExactly | src/App.jsx:33-36 | While the game is not over, a key ends it exactly when that key is `Enter` on a five-character input equal to the solution. |
| Session.BackspaceDrops | src/App.jsx:40-43 | `Backspace` removes exactly the last character of the input and changes no other field. On an empty input it changes nothing. |
| Session.OtherKeys | src/App.jsx:45-53 | A key other than `Enter` or `Backspace` changes the state exactly when it is one lower-case letter and the input is shorter than five. The only change is then that the letter is appended to the input. |
| Session.SixLetters | src/App.jsx:45-53 | Typing six letters from the start leaves the input at its first five. |
| Session.EnterShortInput | src/App.jsx:24-27 | Typing "ab" then `Enter` from the start leaves every slot empty. |
| Session.BackspaceEmpty | src/App.jsx:40-43 | `Backspace` at the start changes nothing. |
| Session.WinWithPlaceholder | src/App.jsx:24-36 | Typing "hello" then `Enter` against the placeholder ends the game. "hello" is then in the first slot and all five of its tiles are correct. |
| Session.ReachableBoard | src/App.jsx:84-91 | In any state that keeps the invariant there are six rows. This covers every `GameSession` state, whatever keys and solution updates came before, because `Valid` is the invariant. The first n rows (n = filled count) are final and show their slot's word, which has five letters. Row n, if it exists, is current with the input. The rest are blank. |
| Session.GameSession.constructor | src/App.jsx:10-13 | A new session satisfies the invariant and holds the initial state. |
| Session.GameSession.FirstEmptyIndex | src/App.jsx:29 | The loop behind `findIndex` returns -1 exactly when every slot is filled. Otherwise it returns the first empty slot. This equals `FirstEmpty` of the slots. |
| Session.GameSession.HandleKey | src/App.jsx:19-54 | The listener's fall-through control flow, with the captured input, leaves the session in exactly `Step`'s new state and keeps the invariant. |
| Session.GameSession.ResolveSolution | src/App.jsx:72 | The arriving word replaces the solution. No other field changes. |

## Left out

- Fetching the word list (src/App.jsx:67-75): the network request, JSON parsing and the `Math.random` choice are I/O and randomness. `ResolveSolution` takes the chosen word as a parameter, already lower-cased, because `toLowerCase` is Unicode case mapping.
- The race between the fetch and early guesses is a scheduling question. Any interleaving is a sequence of `HandleKey` and `ResolveSolution` calls.
- React plumbing: `useState`/`useEffect`, listener registration and removal on `window` (src/App.jsx:57-60), and the re-render timing of stale closures. Each key is taken to see the latest state.
- Rendering: JSX, DOM output and CSS class strings (src/App.jsx:123-136). A tile keeps only its character and its colour.
- Logging: `console.log` (src/App.jsx:112).
- The non-index property "-1" that `newGuesses[-1] = ...` creates when the board is full (src/App.jsx:29). The model writes no slot in that case.
- JavaScript strings are sequences of UTF-16 code units. The model uses Dafny characters, which only matters for keys and words outside the a-z range the game accepts.
- Determinism of the classification (the same guess and solution always give the same colours) needs no lemma: `Classify` is a function.
