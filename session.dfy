/**
 * The game session as the program holds it: one mutable record whose fields
 * the player's actions and the puzzle and treasure rules assign in place,
 * over a room table whose item lists and puzzles they change. Each method
 * performs one rule step by step and is proved to leave exactly the state
 * that the rule's function in `PlayerActions` or `Utils` describes. The second
 * half states what holds after any sequence of rules from the start.
 */
module Session {
  import opened Builtins
  import opened Constants
  import opened GameState
  import Utils
  import PlayerActions

  class Game {
    var rooms: map<string, Room>
    var inventory: seq<string>
    var current: string
    var steps: nat
    var gameOver: bool

    /** The session's fields as one value. */
    function Snapshot(): State
      reads this
    {
      State(rooms, inventory, current, steps, gameOver)
    }

    predicate Valid()
      reads this
    {
      GameState.Valid(Snapshot())
    }

    /** The initial game state: at the entrance, nothing held, no steps taken, the game not over. */
    constructor ()
      ensures Valid() && Snapshot() == Initial()
    {
      rooms := Rooms();
      inventory := [];
      current := "entrance";
      steps := 0;
      gameOver := false;
      InitialValid();
    }

    /** `move_player`. */
    method MovePlayer(direction: string) returns (outcome: PlayerActions.MoveOutcome)
      requires Valid()
      modifies this
      ensures Valid()
      ensures PlayerActions.Move(old(Snapshot()), direction) == Step(Snapshot(), outcome)
    {
      var exits := rooms[current].exits;
      match ExitTarget(exits, direction) {
        case None =>
          outcome := PlayerActions.NoExit;
        case Some(target) =>
          assert Exit(direction, target) in rooms[current].exits;
          current := target;
          steps := steps + 1;
          outcome := PlayerActions.Moved(Utils.Describe(Snapshot()));
      }
    }

    /** `take_item`. */
    method TakeItem(item: string) returns (outcome: PlayerActions.TakeOutcome)
      requires Valid()
      modifies this
      ensures Valid()
      ensures PlayerActions.Take(old(Snapshot()), item) == Step(Snapshot(), outcome)
    {
      if item == Chest {
        return PlayerActions.TooHeavy;
      }
      var items := rooms[current].items;
      if item !in items {
        return PlayerActions.NotHere;
      }
      rooms := rooms[current := rooms[current].(items := RemoveFirst(items, item))];
      inventory := inventory + [item];
      outcome := PlayerActions.Taken;
      PlayerActions.TakeEvolves(old(Snapshot()), item);
      EvolvesKeepsValid(old(Snapshot()), Snapshot());
    }

    /** `use_item`. */
    method UseItem(item: string) returns (outcome: PlayerActions.UseOutcome)
      requires Valid()
      modifies this
      ensures Valid()
      ensures PlayerActions.Use(old(Snapshot()), item) == Step(Snapshot(), outcome)
    {
      if item !in inventory {
        return PlayerActions.NotHeld;
      }
      if item == Torch {
        outcome := PlayerActions.TorchLit;
      } else if item == Sword {
        outcome := PlayerActions.SwordGripped;
      } else if item == BronzeBox {
        if RustyKey !in inventory {
          inventory := inventory + [RustyKey];
          outcome := PlayerActions.BoxOpened;
        } else {
          outcome := PlayerActions.BoxEmpty;
        }
      } else {
        outcome := PlayerActions.UnknownUse;
      }
    }

    /** `solve_puzzle`, with `input` the line typed at its prompt. */
    method SolvePuzzle(input: string) returns (outcome: Utils.SolveOutcome)
      requires Valid()
      modifies this
      ensures Valid()
      ensures Utils.Solve(old(Snapshot()), input) == Step(Snapshot(), outcome)
    {
      var puzzle := rooms[current].puzzle;
      if puzzle.None? {
        return Utils.NoPuzzle;
      }
      var given := Strip(input);
      if given == "quit" {
        gameOver := true;
        return Utils.QuitAtAnswer;
      }
      if Utils.Accepts(puzzle.value.answer, given) {
        rooms := rooms[current := rooms[current].(puzzle := None)];
        if TreasureKey !in inventory {
          inventory := inventory + [TreasureKey];
          outcome := Utils.Solved(TreasureKey);
        } else {
          inventory := inventory + [GoldCoin];
          outcome := Utils.Solved(GoldCoin);
        }
        Utils.SolveEvolves(old(Snapshot()), input);
        EvolvesKeepsValid(old(Snapshot()), Snapshot());
      } else {
        outcome := Utils.Incorrect;
      }
    }

    /** `attempt_open_treasure`, with `choice` and `code` the lines typed at its two prompts. */
    method AttemptOpenTreasure(choice: string, code: string) returns (outcome: Utils.OpenOutcome)
      requires Valid()
      modifies this
      ensures Valid()
      ensures Utils.OpenTreasure(old(Snapshot()), choice, code) == Step(Snapshot(), outcome)
    {
      var items := rooms[current].items;
      if Chest !in items {
        return Utils.NoChest;
      }
      if TreasureKey in inventory {
        rooms := rooms[current := rooms[current].(items := RemoveFirst(items, Chest))];
        gameOver := true;
        Utils.OpenEvolves(old(Snapshot()), choice, code);
        EvolvesKeepsValid(old(Snapshot()), Snapshot());
        return Utils.OpenedWithKey;
      }
      var answer := Lower(Strip(choice));
      if answer == "quit" {
        gameOver := true;
        return Utils.OpenQuit;
      }
      if answer !in Utils.Confirmations {
        return Utils.SteppedBack;
      }
      var puzzle := rooms[current].puzzle;
      if puzzle.None? {
        return Utils.MechanismBroken;
      }
      var given := Strip(code);
      if given == "quit" {
        gameOver := true;
        return Utils.OpenQuit;
      }
      if Utils.Accepts(puzzle.value.answer, given) {
        rooms := rooms[current := rooms[current].(items := RemoveFirst(items, Chest))];
        gameOver := true;
        outcome := Utils.OpenedWithCode;
        Utils.OpenEvolves(old(Snapshot()), choice, code);
        EvolvesKeepsValid(old(Snapshot()), Snapshot());
      } else {
        outcome := Utils.WrongCode;
      }
    }
  }

  // ---------------------------------------------------------------------
  // Any sequence of rules from the start
  // ---------------------------------------------------------------------

  /** One call of a rule, with the lines typed at its prompts. */
  datatype Action =
    | Go(direction: string)
    | Take(item: string)
    | Use(item: string)
    | Solve(input: string)
    | Open(choice: string, code: string)

  /** The state one rule leaves; every rule keeps the state valid and evolves it. */
  function Apply(s: State, a: Action): (t: State)
    requires Valid(s)
    ensures Valid(t) && Evolves(s, t)
  {
    match a
    case Go(direction) =>
      PlayerActions.MoveEvolves(s, direction);
      PlayerActions.Move(s, direction).next
    case Take(item) =>
      PlayerActions.TakeEvolves(s, item);
      PlayerActions.Take(s, item).next
    case Use(item) =>
      PlayerActions.UseEvolves(s, item);
      PlayerActions.Use(s, item).next
    case Solve(input) =>
      Utils.SolveEvolves(s, input);
      Utils.Solve(s, input).next
    case Open(choice, code) =>
      Utils.OpenEvolves(s, choice, code);
      Utils.OpenTreasure(s, choice, code).next
  }

  /** The state a sequence of rules leaves: still valid, and evolved from where it began. */
  function Run(s: State, actions: seq<Action>): (t: State)
    requires Valid(s)
    ensures Valid(t) && Evolves(s, t)
    decreases |actions|
  {
    if actions == [] then
      EvolvesReflexive(s);
      s
    else
      var next := Apply(s, actions[0]);
      var t := Run(next, actions[1..]);
      EvolvesTransitive(s, next, t);
      t
  }

  /** The state the game reaches from the start through `actions`. */
  function Play(actions: seq<Action>): (t: State)
    ensures Valid(t) && Evolves(Initial(), t)
  {
    InitialValid();
    Run(Initial(), actions)
  }

  /** What holds in every state the game can reach: valid, evolved from the start, at most one treasure key held. */
  predicate Sound(s: State) {
    Valid(s) && Evolves(Initial(), s) && multiset(s.inventory)[TreasureKey] <= 1
  }

  /** No room ever holds a treasure key: rooms only lose items, and none held one at the start. */
  lemma NoTreasureKeyInRooms(s: State, k: string)
    requires Evolves(Initial(), s) && k in s.rooms
    ensures TreasureKey !in s.rooms[k].items
  {
    NoKeyOrCoinInTable();
    assert RoomEvolves(Rooms()[k], s.rooms[k]);
    assert multiset(Rooms()[k].items)[TreasureKey] == 0;
  }

  /** Using adds at most a rusty key. */
  lemma UseKeepsKeyCount(s: State, item: string)
    ensures multiset(PlayerActions.Use(s, item).next.inventory)[TreasureKey] == multiset(s.inventory)[TreasureKey]
  {
    if PlayerActions.Use(s, item).outcome == PlayerActions.BoxOpened {
      assert multiset(s.inventory + [RustyKey]) == multiset(s.inventory) + multiset{RustyKey};
    }
  }

  /** Taking adds no treasure key when the room holds none. */
  lemma TakeKeepsKeyCount(s: State, item: string)
    requires InRoom(s) && TreasureKey !in Here(s).items
    ensures multiset(PlayerActions.Take(s, item).next.inventory)[TreasureKey] == multiset(s.inventory)[TreasureKey]
  {
    if PlayerActions.Take(s, item).outcome == PlayerActions.Taken {
      assert multiset(s.inventory + [item]) == multiset(s.inventory) + multiset{item};
    }
  }

  /** With no treasure key in the current room, no rule makes the player hold two. */
  lemma ApplyKeyCount(s: State, a: Action)
    requires Valid(s) && TreasureKey !in Here(s).items && multiset(s.inventory)[TreasureKey] <= 1
    ensures multiset(Apply(s, a).inventory)[TreasureKey] <= 1
  {
    match a
    case Go(direction) =>
      assert Apply(s, a).inventory == s.inventory;
    case Take(item) =>
      assert Apply(s, a) == PlayerActions.Take(s, item).next;
      TakeKeepsKeyCount(s, item);
    case Use(item) =>
      assert Apply(s, a) == PlayerActions.Use(s, item).next;
      UseKeepsKeyCount(s, item);
    case Solve(input) =>
      assert Apply(s, a) == Utils.Solve(s, input).next;
      Utils.SolveNeverDuplicatesTreasureKey(s, input);
    case Open(choice, code) =>
      assert Apply(s, a) == Utils.OpenTreasure(s, choice, code).next;
      Utils.OpenShape(s, choice, code);
  }

  lemma ApplyKeepsSound(s: State, a: Action)
    requires Sound(s)
    ensures Sound(Apply(s, a))
  {
    var t := Apply(s, a);
    EvolvesTransitive(Initial(), s, t);
    NoTreasureKeyInRooms(s, s.current);
    ApplyKeyCount(s, a);
  }

  lemma {:induction false} RunKeepsSound(s: State, actions: seq<Action>)
    requires Sound(s)
    ensures Sound(Run(s, actions))
    decreases |actions|
  {
    if actions != [] {
      ApplyKeepsSound(s, actions[0]);
      RunKeepsSound(Apply(s, actions[0]), actions[1..]);
    }
  }

  /** After any sequence of rules from the start the player stands in a room of the table and holds at most one treasure key. */
  lemma ReachableKeyCount(actions: seq<Action>)
    ensures Play(actions).current in Play(actions).rooms
    ensures multiset(Play(actions).inventory)[TreasureKey] <= 1
  {
    InitialValid();
    RunKeepsSound(Initial(), actions);
  }

  /** After any sequence of rules from the start the chest lies nowhere but in the treasure room. */
  lemma ReachableChestPlace(actions: seq<Action>)
    ensures forall k :: k in Play(actions).rooms && Chest in Play(actions).rooms[k].items ==> k == "treasure_room"
  {
    var t := Play(actions);
    ChestOnlyInTreasureRoom();
    forall k | k in t.rooms && k != "treasure_room"
      ensures Chest !in t.rooms[k].items
    {
      AbsentStaysAbsent(Initial(), t, k, Chest);
    }
  }

  /** After any sequence of rules the entrance and the armory still have no puzzle. */
  lemma ReachableFlags(actions: seq<Action>)
    ensures "entrance" in Play(actions).rooms && Play(actions).rooms["entrance"].puzzle.None?
    ensures "armory" in Play(actions).rooms && Play(actions).rooms["armory"].puzzle.None?
  {
    PuzzlePlacement();
    SolvedStaysSolved(Initial(), Play(actions), "entrance");
    SolvedStaysSolved(Initial(), Play(actions), "armory");
  }

  /**
   * After any sequence of rules no room lists an exit label twice, so in
   * every reachable state a move along a listed exit reaches its target.
   */
  lemma ReachableDirections(actions: seq<Action>)
    ensures UniqueDirections(Play(actions).rooms)
    ensures var t := Play(actions);
      forall direction, target :: Exit(direction, target) in Here(t).exits ==>
        PlayerActions.Move(t, direction).next.current == target
  {
    var t := Play(actions);
    TableUniqueDirections();
    forall k, i, j | k in t.rooms && 0 <= i < j < |t.rooms[k].exits|
      ensures t.rooms[k].exits[i].direction != t.rooms[k].exits[j].direction
    {
      assert RoomEvolves(Rooms()[k], t.rooms[k]);
    }
    forall direction, target | Exit(direction, target) in Here(t).exits
      ensures PlayerActions.Move(t, direction).next.current == target
    {
      PlayerActions.MoveFollowsExit(t, direction, target);
    }
  }

  /** A game that has ended stays ended, whatever rules follow. */
  lemma GameOverStays(s: State, more: seq<Action>)
    requires Valid(s) && s.gameOver
    ensures Run(s, more).gameOver
  {
  }
}
