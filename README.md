# Labyrinth game: the game-state core in Dafny

This project models the rules of a small text adventure. A player explores a
labyrinth of six rooms, picks up and uses items, answers puzzles and tries to
open a treasure chest. The game keeps two pieces of state:

- one session record: the current room, the inventory, the step counter and
  the game-over flag;
- a shared room table. Each room has a description, labelled exits, an
  ordered item list and an optional puzzle. A puzzle's answer is one string
  or a tuple of variants.

The rules change both in place:
- moving along an exit bumps the step counter;
- taking an item moves it from the room's list to the inventory, and the
  chest is refused;
- using the bronze box grants the rusty key once;
- a solved puzzle is cleared and pays `treasure_key`, or `gold_coin` when
  the key is already held;
- the chest opens with the key, or with a confirmation and the right code.
  That ends the game.

The model has three layers:

- **Values and rules as functions.**
  - `Constants` holds the room table as the game starts, with its
    well-formedness facts.
  - `GameState` holds the session record plus the room table as one value,
    `State`. Its relation `Evolves` says what any rule may do: rooms only
    lose items and puzzles, steps never decrease, an ended game stays ended.
  - `Utils` and `PlayerActions` write each rule as a function from the state
    before (and the lines typed at its prompts) to the state after and what
    it reports.
- **The mutable session.** `Session.Game` is a class with the record's
  fields and the room table. Its methods perform each rule by assignment.
  Each method is proved to leave exactly the state the rule's function
  describes. `Session` also proves what holds after any sequence of rules
  from the start.
- **Built-ins.** `Builtins` writes out the Python built-ins the rules depend
  on:
  - `str.strip`, with Python's whitespace set;
  - `str.lower` and `str.upper`;
  - `str.join`;
  - `list.remove`, which removes the first occurrence;
  - `repr` of a string, and `str` of a tuple of strings.

Answers are checked as the code checks them. The stripped input, lower-cased,
must equal `str(correct_answer)` lower-cased. For the hall and the library,
the stored answer is a tuple such as `('10', 'десять')`, so `str` gives the
tuple's literal text. Typing `10` or `десять` in the hall is therefore a
wrong answer, and only the text `('10', 'десять')` solves it
(`Utils.HallAcceptsOnlyTupleText`, `Scenarios.SolveInHall`). The hall's own
prompt asks for the answer "цифрой или словом", as a digit or as a word
(labyrinth_game/constants.py:24-25), but the comparison at
labyrinth_game/utils.py:66 is against the tuple's text. The model follows the
comparison.

Comparisons that read `"quit"` follow the code exactly:
- at the puzzle prompt and at the code prompt, the input is only stripped,
  so `QUIT` there is an ordinary answer;
- at the chest's confirmation prompt, the input is stripped and
  lower-cased, so `QUIT` there also ends the game.

No rule checks the game-over flag first, and the inventory may hold
duplicates. The model keeps both.

## Model

| member | source | states |
|---|---|---|
| Builtins.Strip | labyrinth_game/utils.py:60 | `s.strip()`: the result is a slice of the input with only whitespace cut from either side, and it neither starts nor ends with whitespace |
| Builtins.StripUntrimmed | labyrinth_game/utils.py:124 | a line without whitespace at either end is compared unchanged |
| Builtins.Lower | labyrinth_game/utils.py:66 | `str.lower()` keeps the length and lower-cases each character in place |
| Builtins.LowerOfUpper | labyrinth_game/utils.py:66 | upper-casing a string first does not change its lower-case form, so the comparison ignores letter case |
| Builtins.Upper | labyrinth_game/utils.py:14 | `str.upper()` of the room id keeps the length and upper-cases each character in place |
| Builtins.JoinSnoc | labyrinth_game/player_actions.py:17 | `", ".join` of a list with one more item is the old line, the separator and the new item |
| Builtins.JoinPlaces | labyrinth_game/player_actions.py:17 | each element of a joined list appears in the line at the offset its predecessors and separators fill |
| Builtins.RemoveFirst | labyrinth_game/player_actions.py:61 | `list.remove` drops exactly the first occurrence and keeps the order of the rest |
| Builtins.RemoveFirstCount | labyrinth_game/player_actions.py:61 | `list.remove` shortens the list by one and removes one copy of that item and nothing else |
| Builtins.ReprOfPlain | labyrinth_game/utils.py:66 | `repr` of a string without quotes, backslashes or control characters is the string between single quotes |
| Builtins.Reprs | labyrinth_game/utils.py:66 | the elements of a tuple are each written as their `repr`, in order |
| Builtins.TupleStr | labyrinth_game/utils.py:66 | `str` of a tuple always opens with `(` and closes with `)` |
| Constants.Directions | labyrinth_game/utils.py:25 | `exits.keys()` lists the exit labels in declaration order, one per exit |
| Constants.ExitTarget | labyrinth_game/player_actions.py:36-40 | `direction not in exits` exactly when the lookup fails; a found target is listed with that label |
| Constants.ExitTargetOfListed | labyrinth_game/player_actions.py:40 | with distinct labels, looking up a listed label gives the target listed with it |
| Constants.WalkStaysInside | labyrinth_game/constants.py:6-75 | following exits through a table whose exits lead to its own rooms always ends in one of those rooms |
| Constants.TableExitsClosed | labyrinth_game/constants.py:12-67 | every exit of every room leads to a room of the table |
| Constants.TableUniqueDirections | labyrinth_game/constants.py:12-67 | no room lists an exit label twice |
| Constants.TableUniqueItems | labyrinth_game/constants.py:13-68 | no room lists the same item twice |
| Constants.ChestOnlyInTreasureRoom | labyrinth_game/constants.py:68 | the chest lies in the treasure room, alone, and in no other room |
| Constants.PuzzlePlacement | labyrinth_game/constants.py:14-73 | the table has exactly the six rooms; the entrance and the armory have no puzzle, the other four have one |
| Constants.AnswerShapes | labyrinth_game/constants.py:26-72 | hall and library store tuples of variants; trap room and treasure room store one string, the treasure room's being `10` |
| Constants.TreasureReachable | labyrinth_game/constants.py:12-21 | north then north leads from the entrance to the treasure room |
| Constants.NoKeyOrCoinInTable | labyrinth_game/constants.py:13-68 | no room holds `treasure_key` or `gold_coin` at the start |
| GameState.InitialValid | labyrinth_game/main.py:10-15 | the initial session stands in a room of the table, and every exit leads to one |
| GameState.EvolvesTransitive | labyrinth_game/utils.py:69 | what rules may do to rooms, steps and the flag composes over several rules |
| GameState.EvolvesByHere | labyrinth_game/player_actions.py:61 | changing only the current room's entry, in an allowed way, is an allowed change of the whole state |
| GameState.EvolvesKeepsValid | labyrinth_game/player_actions.py:40-41 | since exits never change, every reachable room still has only exits into the table |
| GameState.AbsentStaysAbsent | labyrinth_game/player_actions.py:61 | an item absent from a room stays absent, because rules only remove items from rooms |
| GameState.SolvedStaysSolved | labyrinth_game/utils.py:69 | a puzzle set to `None` never comes back |
| Utils.Describe | labyrinth_game/utils.py:13-16 | the description opens with a blank line, the upper-cased room id, the room's description and a blank line, and ends with a blank line |
| Utils.DescribeItems | labyrinth_game/utils.py:18-21 | an items line, the items joined by ", ", appears exactly when the room holds items, and no other items line does |
| Utils.DescribeExits | labyrinth_game/utils.py:23-26 | an exits line, the labels joined by ", " in order, appears exactly when the room has exits, and no other exits line does |
| Utils.DescribeHint | labyrinth_game/utils.py:28-32 | the puzzle hint appears exactly while the room's puzzle is not `None` |
| Utils.VariantsNeedTupleText | labyrinth_game/utils.py:66 | a tuple answer accepts only input that opens with `(` and closes with `)` |
| Utils.LoneVariantRejected | labyrinth_game/utils.py:66 | a single variant of a tuple answer, typed on its own, is a wrong answer |
| Utils.SingleAcceptsItself | labyrinth_game/utils.py:130 | a one-string answer accepts the stored string typed as stored, all in upper case, or all in lower case |
| Utils.HallAcceptsOnlyTupleText | labyrinth_game/constants.py:23-27 | the hall rejects `10` and `десять` and accepts `('10', 'десять')` |
| Utils.TupleTextOfHall | labyrinth_game/constants.py:26 | `str(('10', 'десять'))` is the text `('10', 'десять')` |
| Utils.SolveWithoutPuzzle | labyrinth_game/utils.py:52-56 | in a room without a puzzle, solving changes nothing |
| Utils.SolveQuit | labyrinth_game/utils.py:60-64 | a stripped answer equal to `quit` sets the game-over flag and changes nothing else |
| Utils.SolveIncorrect | labyrinth_game/utils.py:79-80 | a wrong answer changes nothing |
| Utils.SolveCorrect | labyrinth_game/utils.py:66-78 | a right answer clears the room's puzzle and appends one reward: `treasure_key` if not held, else `gold_coin`; nothing else changes |
| Utils.SolvedExactly | labyrinth_game/utils.py:54-66 | a solve succeeds if and only if a puzzle is there, the stripped answer is not `quit`, and it matches the stored answer |
| Utils.SolveNeverDuplicatesTreasureKey | labyrinth_game/utils.py:73-78 | solving never makes the player hold a second `treasure_key` |
| Utils.SolveTwice | labyrinth_game/utils.py:69 | after a successful solve, solving again in that room finds no puzzle and changes nothing |
| Utils.SolveEvolves | labyrinth_game/utils.py:48-80 | solving is an allowed change (`Evolves`) that stays in the room, leaves every other room and the current room's items, description and exits as they were, keeps the old inventory as a prefix with at most one item added, and keeps the step counter |
| Utils.OpenChestEffect | labyrinth_game/utils.py:98-100 | opening removes one chest from the room's items, sets game over, and keeps the inventory, puzzle, exits and the other rooms |
| Utils.OpenWithoutChest | labyrinth_game/utils.py:88-91 | without a chest in the room nothing changes |
| Utils.OpenWithKey | labyrinth_game/utils.py:93-101 | holding the key opens the chest whatever is typed, and the key stays held |
| Utils.OpenWithoutKey | labyrinth_game/utils.py:103-136 | without the key: `quit` at either prompt sets only the flag; an answer other than да, yes or y, a missing puzzle, or a wrong code changes nothing; the right code opens the chest |
| Utils.OpenShape | labyrinth_game/utils.py:83-136 | every outcome leaves the state as it was, only sets the flag, or opens the chest |
| Utils.ChestLeavesOnlyOnWin | labyrinth_game/utils.py:98-134 | the room table changes if and only if the chest is opened by key or code, and then the game is over |
| Utils.OpenEvolves | labyrinth_game/utils.py:83-136 | the treasure rule is an allowed change (`Evolves`) that stays in the room, keeps the inventory, the step counter and every other room, and either leaves the room table as it was or removes the first chest from the current room and changes nothing else there |
| PlayerActions.ShowInventory | labyrinth_game/player_actions.py:11-18 | the empty message is shown exactly when the inventory is empty; a single item is shown as itself |
| PlayerActions.InventoryLineInOrder | labyrinth_game/player_actions.py:17-18 | every held item appears in the inventory line in inventory order |
| PlayerActions.InventoryLineAfterAppend | labyrinth_game/player_actions.py:17-18 | appending an item extends the inventory line by ", " and that item |
| PlayerActions.Move | labyrinth_game/player_actions.py:30-43 | a move from a valid state leaves a valid state: the player always stands in a room of the table |
| PlayerActions.MoveNoExit | labyrinth_game/player_actions.py:36-38 | a direction that is not an exit changes nothing |
| PlayerActions.MoveFollowsExit | labyrinth_game/player_actions.py:40-43 | along an exit, the player reaches its target with exactly one more step; inventory, flag and rooms are unchanged; the new room is described |
| PlayerActions.MoveEvolves | labyrinth_game/player_actions.py:30-43 | moving is an allowed change (`Evolves`) that leaves the room table, the inventory and the flag as they were and adds at most one step |
| PlayerActions.MoveAlong | labyrinth_game/player_actions.py:30-43 | any sequence of moves keeps the state valid |
| PlayerActions.MoveAlongWalk | labyrinth_game/player_actions.py:40-42 | moves along a walk through the exits end where the walk ends, one step per direction, with inventory, flag and rooms untouched |
| PlayerActions.NorthNorthReachesTreasure | labyrinth_game/constants.py:12-21 | from the start, north twice reaches the treasure room in two steps |
| PlayerActions.TakeChestRefused | labyrinth_game/player_actions.py:51-53 | taking the chest is refused and changes nothing, even where it lies |
| PlayerActions.TakeAbsent | labyrinth_game/player_actions.py:57-59 | taking an item not in the room changes nothing |
| PlayerActions.TakeMovesOneCopy | labyrinth_game/player_actions.py:61-62 | taking removes the first copy from the room's list, the other items keeping their order, and appends it to the inventory, so the item's copies across both are preserved; the room's description, exits and puzzle, the other rooms, the position, steps and flag are unchanged |
| PlayerActions.TakeSingleCopyTwice | labyrinth_game/player_actions.py:57-62 | an item the room held once cannot be taken twice |
| PlayerActions.TakeExtendsInventoryLine | labyrinth_game/player_actions.py:62 | after a take, the inventory line ends with the item taken |
| PlayerActions.TakeEvolves | labyrinth_game/player_actions.py:46-63 | taking is an allowed change (`Evolves`) that stays in the room, leaves every other room and the current room's description, exits and puzzle as they were, never lengthens the current room's item list, and keeps the step counter and the flag |
| PlayerActions.UseNotHeld | labyrinth_game/player_actions.py:70-72 | using an item that is not held changes nothing |
| PlayerActions.UseNeverRemoves | labyrinth_game/player_actions.py:66-86 | using never removes anything: only the inventory may change, and only by growing at the end |
| PlayerActions.UseOtherItemsChangeNothing | labyrinth_game/player_actions.py:74-86 | the torch, the sword and unknown items change nothing |
| PlayerActions.UseBronzeBox | labyrinth_game/player_actions.py:78-84 | the bronze box appends `rusty_key` exactly when it is not held; afterwards it is held, and a second use changes nothing |
| PlayerActions.UseEvolves | labyrinth_game/player_actions.py:66-86 | using is an allowed change (`Evolves`) that leaves the room table and the position as they were, keeps the old inventory as a prefix and adds at most one item |
| Session.Game.constructor | labyrinth_game/main.py:10-15 | a new session is at the entrance with an empty inventory, no steps, the game not over, and the room table as it starts |
| Session.Game.MovePlayer | labyrinth_game/player_actions.py:30-43 | the assignments leave exactly the state and outcome `PlayerActions.Move` describes, and keep the session valid |
| Session.Game.TakeItem | labyrinth_game/player_actions.py:46-63 | the in-place removal and append leave exactly what `PlayerActions.Take` describes |
| Session.Game.UseItem | labyrinth_game/player_actions.py:66-86 | the conditional append leaves exactly what `PlayerActions.Use` describes |
| Session.Game.SolvePuzzle | labyrinth_game/utils.py:48-80 | clearing the puzzle and appending the reward leave exactly what `Utils.Solve` describes |
| Session.Game.AttemptOpenTreasure | labyrinth_game/utils.py:83-136 | removing the chest and setting the flag leave exactly what `Utils.OpenTreasure` describes |
| Session.Apply | labyrinth_game/player_actions.py:30-86 | any one rule keeps the state valid and evolves it |
| Session.Run | labyrinth_game/utils.py:48-136 | any sequence of rules keeps the state valid and evolves it |
| Session.NoTreasureKeyInRooms | labyrinth_game/constants.py:13-68 | in every reachable state, no room holds a treasure key |
| Session.TakeKeepsKeyCount | labyrinth_game/player_actions.py:61-62 | where the room holds no treasure key, taking leaves the number of keys held unchanged |
| Session.UseKeepsKeyCount | labyrinth_game/player_actions.py:78-82 | using leaves the number of treasure keys held unchanged |
| Session.ApplyKeyCount | labyrinth_game/utils.py:73-78 | where the room holds no treasure key, no rule makes the player hold two |
| Session.ApplyKeepsSound | labyrinth_game/utils.py:48-136 | each rule keeps a reachable state valid, evolved from the start, with at most one treasure key held |
| Session.RunKeepsSound | labyrinth_game/utils.py:48-136 | the same holds after any sequence of rules |
| Session.ReachableKeyCount | labyrinth_game/utils.py:73-78 | after any sequence of rules from the start, the player stands in a room and holds at most one treasure key |
| Session.ReachableChestPlace | labyrinth_game/constants.py:68 | after any sequence of rules, the chest lies nowhere but in the treasure room |
| Session.ReachableFlags | labyrinth_game/constants.py:14-61 | after any sequence of rules, the entrance and the armory still have no puzzle |
| Session.ReachableDirections | labyrinth_game/player_actions.py:40-43 | after any sequence of rules no room lists an exit label twice, as a dict's keys are unique, so in every reachable state a move along a listed exit reaches that exit's target |
| Session.GameOverStays | labyrinth_game/utils.py:63-134 | no rule clears the game-over flag, so an ended game stays ended |
| Scenarios.TakeTorchAtEntrance | labyrinth_game/constants.py:13 | at the start, taking the torch empties the entrance and shows `torch` as the inventory |
| Scenarios.SolveInHall | labyrinth_game/utils.py:60-80 | in the hall, `10` is wrong; `('10', 'десять')` typed with blanks around it pays the treasure key; a second solve finds no puzzle |
| Scenarios.DeclineInTreasureRoom | labyrinth_game/utils.py:108-116 | without the key, answering `нет` in the treasure room changes nothing |
| Scenarios.CodeInTreasureRoom | labyrinth_game/utils.py:124-134 | without the key, `yes` and then the code `10` open the chest, empty the room and end the game |

## Left out

- Message wording. Every `print` becomes an outcome value: `MoveOutcome`, `TakeOutcome`, `UseOutcome`, `SolveOutcome` and `OpenOutcome`. The room description becomes a list of line kinds. The puzzle question is stored but never shown.
- Console input. `input`, `_safe_input` and `get_input` are not modelled. Each prompt's line is a parameter, and an interrupt arrives as the string `quit`, as the code turns it into that string.
- The entry point in `main.py`. Only its initial session literal is modelled. The banner it prints is left out.
- The help table `COMMANDS` and `HELP_PADDING`. They only format help text.
- `EVENT_PROBABILITY_MODULO`, `TRAP_DEATH_THRESHOLD` and `EVENT_TYPE_COUNT`. No code reads them, and no random event or trap exists in these files.
- Command parsing and the read-and-dispatch loop. Neither is in these files. `Session.Run` covers any sequence of rule calls instead.
- Builtins.Lower: lowers only `A`–`Z` (to `a`–`z`), U+0410–U+042F (to U+0430–U+044F) and U+0400–U+040F (to U+0450–U+045F). Python's other Unicode case mappings are not modelled: any other typed character is compared as it is, where Python may lower it. Every letter of the stored answers lies in these ranges.
- Builtins.Upper: raises only `a`–`z` (to `A`–`Z`), U+0430–U+044F (to U+0410–U+042F) and U+0450–U+045F (to U+0400–U+040F), the inverse of `Builtins.Lower`. Room ids are ASCII.
- Builtins.Repr: escapes the backslash, the quote, `\t`, `\n`, `\r` and the other ASCII control characters. Python's escapes for non-printable non-ASCII characters are not modelled. No answer in the table contains one.
- Exits are an ordered list of label and target pairs rather than a dictionary. That keeps the dictionary's order for the exits line. Labels are proved distinct for the table (`Constants.TableUniqueDirections`).
- The `.get` defaults in the rules (`[]`, `{}`). Every room of the table has all four keys, and no rule removes a key, so a `Room` always has them all.
- The room table is a field of `Session.Game`, set to its starting value by the constructor. In the program it is a module-level dictionary that outlives one session. Reusing it for a second session in the same process is not modelled.
- PlayerActions.Move, Session.Game.MovePlayer: require that the player stands in a room of the table and that every exit leads to one (`GameState.Valid`). In the program, breaking this raises `KeyError` in the table lookup or in the description. `GameState.InitialValid` and `Session.Run` prove the condition in every reachable state.
- PlayerActions.Take, Utils.Solve, Utils.OpenTreasure, Utils.Describe: require that the player stands in a room of the table (`GameState.InRoom`). In the program, breaking this raises `KeyError` at `ROOMS[room_id]`. `Session.ReachableKeyCount` proves the condition in every reachable state.
