/**
 * The player's actions: showing the inventory, moving along an exit, taking
 * an item from the room and using an item. Like the rules in `Utils`, each is
 * a function from the state before to the state after and what it reports;
 * `Session.Game` performs them by assignment.
 */
module PlayerActions {
  import opened Builtins
  import opened Constants
  import opened GameState
  import opened Utils

  // ---------------------------------------------------------------------
  // show_inventory
  // ---------------------------------------------------------------------

  /** What `show_inventory` prints: the empty message, or the items joined by ", ". */
  datatype InventoryLine = EmptyInventory | Holding(list: string)

  function ShowInventory(inventory: seq<string>): (r: InventoryLine)
    ensures r == EmptyInventory <==> inventory == []
    ensures r.Holding? && |inventory| == 1 ==> r.list == inventory[0]
  {
    if inventory == [] then EmptyInventory else Holding(Join(", ", inventory))
  }

  /** Each held item appears in the inventory line, in inventory order, at the place its predecessors fill. */
  lemma InventoryLineInOrder(inventory: seq<string>, k: nat)
    requires k < |inventory|
    ensures var line := ShowInventory(inventory).list;
      var at := JoinOffset(", ", inventory, k);
      at + |inventory[k]| <= |line| && line[at..at + |inventory[k]|] == inventory[k]
  {
    JoinPlaces(", ", inventory, k);
  }

  /** Appending an item to the inventory adds ", " and that item to the end of the line. */
  lemma InventoryLineAfterAppend(inventory: seq<string>, item: string)
    ensures ShowInventory(inventory + [item]) ==
      Holding(if inventory == [] then item else ShowInventory(inventory).list + ", " + item)
  {
    if inventory != [] {
      JoinSnoc(", ", inventory, item);
    }
  }

  // ---------------------------------------------------------------------
  // move_player
  // ---------------------------------------------------------------------

  /** What `move_player` reports: no exit that way, or the new room's description. */
  datatype MoveOutcome = NoExit | Moved(view: seq<Line>)

  /** `move_player`: follow the exit labelled `direction`, count the step and describe the new room. */
  function Move(s: State, direction: string): (r: Step<MoveOutcome>)
    requires Valid(s)
    ensures Valid(r.next)
  {
    match ExitTarget(Here(s).exits, direction)
    case None => Step(s, NoExit)
    case Some(target) =>
      assert Exit(direction, target) in Here(s).exits;
      var t := s.(current := target, steps := s.steps + 1);
      Step(t, Moved(Describe(t)))
  }

  /** A direction that is not one of the room's exits changes nothing. */
  lemma MoveNoExit(s: State, direction: string)
    requires Valid(s) && direction !in Directions(Here(s).exits)
    ensures Move(s, direction) == Step(s, NoExit)
  {
  }

  /**
   * Moving along an exit of the room puts the player in the exit's target,
   * adds exactly one step, describes the new room, and leaves the inventory,
   * the flag and the rooms alone.
   */
  lemma MoveFollowsExit(s: State, direction: string, target: string)
    requires Valid(s) && Exit(direction, target) in Here(s).exits
    requires UniqueDirections(s.rooms)
    ensures var r := Move(s, direction);
      && r.next == s.(current := target, steps := s.steps + 1)
      && r.outcome == Moved(Describe(r.next))
      && r.next.current in r.next.rooms
  {
    ExitTargetOfListed(s.rooms, s.current, direction, target);
  }

  /** Moving is an allowed change that touches no room, the inventory or the flag. */
  lemma MoveEvolves(s: State, direction: string)
    requires Valid(s)
    ensures Evolves(s, Move(s, direction).next)
    ensures var t := Move(s, direction).next;
      && t.rooms == s.rooms && t.inventory == s.inventory && t.gameOver == s.gameOver
      && s.steps <= t.steps <= s.steps + 1
  {
  }

  /** The state after moving along each of `directions` in turn (a direction without an exit leaves it in place). */
  function MoveAlong(s: State, directions: seq<string>): (t: State)
    requires Valid(s)
    ensures Valid(t)
    decreases |directions|
  {
    if directions == [] then s else MoveAlong(Move(s, directions[0]).next, directions[1..])
  }

  /**
   * Where a walk through the exits leads, the moves lead too: one step per
   * direction, with the inventory, the flag and the rooms untouched.
   */
  lemma {:induction false} MoveAlongWalk(s: State, directions: seq<string>)
    requires Valid(s) && Walk(s.rooms, s.current, directions).Some?
    ensures var t := MoveAlong(s, directions);
      && t.current == Walk(s.rooms, s.current, directions).value
      && t.steps == s.steps + |directions|
      && t.rooms == s.rooms && t.inventory == s.inventory && t.gameOver == s.gameOver
    decreases |directions|
  {
    if directions != [] {
      var next := ExitTarget(Here(s).exits, directions[0]).value;
      assert Move(s, directions[0]).next == s.(current := next, steps := s.steps + 1);
      MoveAlongWalk(Move(s, directions[0]).next, directions[1..]);
    }
  }

  /** From the start, north and north again reach the treasure room in two steps. */
  lemma NorthNorthReachesTreasure()
    ensures Valid(Initial())
    ensures MoveAlong(Initial(), ["north", "north"]).current == "treasure_room"
    ensures MoveAlong(Initial(), ["north", "north"]).steps == 2
  {
    InitialValid();
    TreasureReachable();
    MoveAlongWalk(Initial(), ["north", "north"]);
  }

  // ---------------------------------------------------------------------
  // take_item
  // ---------------------------------------------------------------------

  datatype TakeOutcome = TooHeavy | NotHere | Taken

  /** `take_item`: the chest is never taken; another item moves from the room's list to the end of the inventory. */
  function Take(s: State, item: string): Step<TakeOutcome>
    requires InRoom(s)
  {
    if item == Chest then Step(s, TooHeavy)
    else if item !in Here(s).items then Step(s, NotHere)
    else
      var room := Here(s).(items := RemoveFirst(Here(s).items, item));
      Step(WithHere(s, room).(inventory := s.inventory + [item]), Taken)
  }

  /** The chest is refused and nothing changes, even when it lies in the room. */
  lemma TakeChestRefused(s: State)
    requires InRoom(s)
    ensures Take(s, Chest) == Step(s, TooHeavy)
  {
  }

  /** Taking an item that is not in the room changes nothing. */
  lemma TakeAbsent(s: State, item: string)
    requires InRoom(s) && item !in Here(s).items
    ensures Take(s, item).next == s && Take(s, item).outcome != Taken
  {
  }

  /**
   * Taking an item that is in the room removes its first copy from the room's
   * list, the rest keeping their order, and appends one to the inventory, so the item's copies across the room
   * and the inventory stay as many as before; nothing else changes.
   */
  lemma TakeMovesOneCopy(s: State, item: string)
    requires InRoom(s) && item != Chest && item in Here(s).items
    ensures var t := Take(s, item).next;
      && Take(s, item).outcome == Taken
      && InRoom(t)
      && t.inventory == s.inventory + [item]
      && multiset(Here(t).items) == multiset(Here(s).items) - multiset{item}
      && multiset(Here(t).items) + multiset(t.inventory) == multiset(Here(s).items) + multiset(s.inventory)
      && Here(t) == Here(s).(items := RemoveFirst(Here(s).items, item))
      && t.current == s.current && t.steps == s.steps && t.gameOver == s.gameOver
      && (forall k :: k in s.rooms && k != s.current ==> k in t.rooms && t.rooms[k] == s.rooms[k])
  {
    RemoveFirstCount(Here(s).items, item);
  }

  /** An item the room held once can be taken once: the second attempt finds nothing. */
  lemma TakeSingleCopyTwice(s: State, item: string)
    requires InRoom(s) && item != Chest && multiset(Here(s).items)[item] == 1
    ensures InRoom(Take(s, item).next)
    ensures var t := Take(s, item).next; Take(t, item) == Step(t, NotHere)
  {
    TakeMovesOneCopy(s, item);
  }

  /** After taking, the inventory line ends with the item taken. */
  lemma TakeExtendsInventoryLine(s: State, item: string)
    requires InRoom(s) && Take(s, item).outcome == Taken
    ensures ShowInventory(Take(s, item).next.inventory) ==
      Holding(if s.inventory == [] then item else ShowInventory(s.inventory).list + ", " + item)
  {
    InventoryLineAfterAppend(s.inventory, item);
  }

  /** Taking is an allowed change that touches only the current room's items, and stays in the room. */
  lemma TakeEvolves(s: State, item: string)
    requires InRoom(s)
    ensures Evolves(s, Take(s, item).next) && Take(s, item).next.current == s.current
    ensures var t := Take(s, item).next;
      && (forall k :: k in s.rooms && k != s.current ==> t.rooms[k] == s.rooms[k])
      && Here(t) == Here(s).(items := Here(t).items)
      && |Here(t).items| <= |Here(s).items|
      && t.steps == s.steps && t.gameOver == s.gameOver
  {
    if Take(s, item).outcome == Taken {
      TakeMovesOneCopy(s, item);
      EvolvesByHere(s, Here(s).(items := RemoveFirst(Here(s).items, item)), Take(s, item).next);
    }
  }

  // ---------------------------------------------------------------------
  // use_item
  // ---------------------------------------------------------------------

  datatype UseOutcome = NotHeld | TorchLit | SwordGripped | BoxOpened | BoxEmpty | UnknownUse

  /** `use_item`: only the bronze box has an effect, granting the rusty key when it is not held. */
  function Use(s: State, item: string): Step<UseOutcome> {
    if item !in s.inventory then Step(s, NotHeld)
    else if item == Torch then Step(s, TorchLit)
    else if item == Sword then Step(s, SwordGripped)
    else if item == BronzeBox then
      if RustyKey !in s.inventory then Step(s.(inventory := s.inventory + [RustyKey]), BoxOpened)
      else Step(s, BoxEmpty)
    else Step(s, UnknownUse)
  }

  /** Using an item that is not held changes nothing. */
  lemma UseNotHeld(s: State, item: string)
    requires item !in s.inventory
    ensures Use(s, item) == Step(s, NotHeld)
  {
  }

  /** Using never removes anything: the old inventory is a prefix of the new one, and only the inventory may change. */
  lemma UseNeverRemoves(s: State, item: string)
    ensures var t := Use(s, item).next;
      && s.inventory <= t.inventory
      && t == s.(inventory := t.inventory)
  {
  }

  /** Every item but the bronze box (the torch, the sword, anything unknown) changes nothing. */
  lemma UseOtherItemsChangeNothing(s: State, item: string)
    requires item != BronzeBox
    ensures Use(s, item).next == s
  {
  }

  /**
   * The bronze box appends the rusty key exactly when it is not held;
   * afterwards the key is held and a second use finds the box empty.
   */
  lemma UseBronzeBox(s: State)
    requires BronzeBox in s.inventory
    ensures var t := Use(s, BronzeBox).next;
      && t.inventory == s.inventory + (if RustyKey in s.inventory then [] else [RustyKey])
      && RustyKey in t.inventory
      && Use(t, BronzeBox) == Step(t, BoxEmpty)
  {
    var t := Use(s, BronzeBox).next;
    assert BronzeBox in t.inventory;
  }

  /** Using is an allowed change that touches no room and keeps what is held. */
  lemma UseEvolves(s: State, item: string)
    ensures Evolves(s, Use(s, item).next)
    ensures var t := Use(s, item).next;
      && t.rooms == s.rooms && t.current == s.current
      && s.inventory <= t.inventory && |t.inventory| <= |s.inventory| + 1
  {
  }
}
