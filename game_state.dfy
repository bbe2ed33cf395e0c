/**
 * The session record (current room, inventory, step counter, game-over flag)
 * together with the room table it acts on, as one value, and the relation
 * every rule of the game keeps between the state before and after it.
 */
module GameState {
  import opened Builtins
  import opened Constants

  datatype State = State(
    rooms: map<string, Room>,
    inventory: seq<string>,
    current: string,
    steps: nat,
    gameOver: bool)

  /** What one rule does: the state it leaves and what it reports. */
  datatype Step<O> = Step(next: State, outcome: O)

  /** The game state `main` builds: the entrance, nothing held, no steps, not over. */
  function Initial(): State {
    State(Rooms(), [], "entrance", 0, false)
  }

  /** `ROOMS[game_state["current_room"]]` can be looked up. */
  predicate InRoom(s: State) {
    s.current in s.rooms
  }

  /** The player stands in a room of the table, and every exit leads to one. */
  predicate Valid(s: State) {
    InRoom(s) && ExitsClosed(s.rooms)
  }

  function Here(s: State): Room
    requires InRoom(s)
  {
    s.rooms[s.current]
  }

  /** The state with the current room's entry of the table replaced. */
  function WithHere(s: State, room: Room): (t: State)
    requires InRoom(s)
    ensures InRoom(t) && Here(t) == room
  {
    s.(rooms := s.rooms[s.current := room])
  }

  /**
   * What a rule may change in one room: its items only shrink and its puzzle
   * only goes away; its description and exits stay.
   */
  predicate RoomEvolves(before: Room, after: Room) {
    && after.description == before.description
    && after.exits == before.exits
    && multiset(after.items) <= multiset(before.items)
    && (after.puzzle == before.puzzle || after.puzzle.None?)
  }

  /**
   * What every rule keeps between the state before and the state after: the
   * same rooms, each evolving as above, a step counter that never decreases
   * and a game-over flag that is never cleared.
   */
  predicate Evolves(s: State, t: State) {
    && t.rooms.Keys == s.rooms.Keys
    && (forall k :: k in s.rooms ==> RoomEvolves(s.rooms[k], t.rooms[k]))
    && s.steps <= t.steps
    && (s.gameOver ==> t.gameOver)
  }

  lemma InitialValid()
    ensures Valid(Initial())
  {
    TableExitsClosed();
  }

  lemma EvolvesTransitive(s: State, t: State, u: State)
    requires Evolves(s, t) && Evolves(t, u)
    ensures Evolves(s, u)
  {
    forall k | k in s.rooms
      ensures RoomEvolves(s.rooms[k], u.rooms[k])
    {
      assert RoomEvolves(s.rooms[k], t.rooms[k]) && RoomEvolves(t.rooms[k], u.rooms[k]);
    }
  }

  lemma EvolvesReflexive(s: State)
    ensures Evolves(s, s)
  {
  }

  /** Changing only the current room's entry, in a way a room may evolve, and the counters and flag monotonically, is an evolution. */
  lemma EvolvesByHere(s: State, room: Room, t: State)
    requires InRoom(s) && RoomEvolves(Here(s), room)
    requires t.rooms == WithHere(s, room).rooms && s.steps <= t.steps && (s.gameOver ==> t.gameOver)
    ensures Evolves(s, t)
  {
    forall k | k in s.rooms
      ensures RoomEvolves(s.rooms[k], t.rooms[k])
    {
      if k != s.current {
        assert t.rooms[k] == s.rooms[k];
      }
    }
  }

  /** Because exits never change, a state that evolved from a valid one is valid as long as its room is in the table. */
  lemma EvolvesKeepsValid(s: State, t: State)
    requires Valid(s) && Evolves(s, t) && t.current in t.rooms
    ensures Valid(t)
  {
    forall k, e | k in t.rooms && e in t.rooms[k].exits
      ensures e.target in t.rooms
    {
      assert RoomEvolves(s.rooms[k], t.rooms[k]);
    }
  }

  /** A room that is solved stays solved: a puzzle set to `None` never comes back. */
  lemma SolvedStaysSolved(s: State, t: State, k: string)
    requires Evolves(s, t) && k in s.rooms && s.rooms[k].puzzle.None?
    ensures k in t.rooms && t.rooms[k].puzzle.None?
  {
    assert RoomEvolves(s.rooms[k], t.rooms[k]);
  }

  /** An item absent from a room stays absent: rules only take items out of rooms. */
  lemma AbsentStaysAbsent(s: State, t: State, k: string, item: string)
    requires Evolves(s, t) && k in s.rooms && item !in s.rooms[k].items
    ensures k in t.rooms && item !in t.rooms[k].items
  {
    assert RoomEvolves(s.rooms[k], t.rooms[k]);
    assert multiset(s.rooms[k].items)[item] == 0;
  }
}
