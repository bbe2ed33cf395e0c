/**
 * The world table: six rooms, each with a description, labelled exits in
 * declaration order, an ordered list of items and an optional puzzle. The
 * other modules change a room only by shrinking its item list or by setting
 * its puzzle to `None`; this module gives the table's initial value and the
 * facts about it the game relies on.
 */
module Constants {
  import opened Builtins

  /** A puzzle's stored answer: one string, or a tuple of variants. */
  datatype Answer = Single(text: string) | Variants(options: seq<string>)

  datatype Puzzle = Puzzle(question: string, answer: Answer)

  /** One entry of a room's `exits` dictionary. */
  datatype Exit = Exit(direction: string, target: string)

  datatype Room = Room(description: string, exits: seq<Exit>, items: seq<string>, puzzle: Option<Puzzle>)

  const Chest := "treasure_chest"
  const TreasureKey := "treasure_key"
  const GoldCoin := "gold_coin"
  const RustyKey := "rusty_key"
  const Torch := "torch"
  const Sword := "sword"
  const BronzeBox := "bronze_box"

  /** `exits.keys()`, in declaration order. */
  function Directions(exits: seq<Exit>): (r: seq<string>)
    ensures |r| == |exits|
    ensures forall i :: 0 <= i < |exits| ==> r[i] == exits[i].direction
  {
    if exits == [] then [] else [exits[0].direction] + Directions(exits[1..])
  }

  /** `exits[direction]`, or `None` when `direction not in exits`. */
  function ExitTarget(exits: seq<Exit>, direction: string): (r: Option<string>)
    ensures r.None? <==> direction !in Directions(exits)
    ensures r.Some? ==> Exit(direction, r.value) in exits
  {
    if exits == [] then None
    else if exits[0].direction == direction then Some(exits[0].target)
    else ExitTarget(exits[1..], direction)
  }

  const Entrance := Room(
    "Вы у входа в лабиринт. Стены покрыты мхом, на полу лежит старый факел.",
    [Exit("north", "hall"), Exit("east", "trap_room")],
    [Torch],
    None)

  const Hall := Room(
    "Большой зал с эхом. По центру стоит пьедестал с запечатанным сундуком.",
    [Exit("south", "entrance"), Exit("west", "library"), Exit("north", "treasure_room")],
    [],
    Some(Puzzle(
      "На пьедестале надпись: \"Назовите число, которое идет после девяти\". Введите ответ цифрой или словом.",
      Variants(["10", "десять"]))))

  const TrapRoom := Room(
    "Комната с хитрым плиточным полом. На стене надпись: \"Осторожно — ловушка\".",
    [Exit("west", "entrance")],
    [RustyKey],
    Some(Puzzle(
      "Система плит активна. Чтобы пройти, введите \"step step step\".",
      Single("step step step"))))

  const Library := Room(
    "Пыльная библиотека. На полках старые свитки. Где-то здесь может быть ключ от сокровищницы.",
    [Exit("east", "hall"), Exit("north", "armory")],
    ["ancient_book"],
    Some(Puzzle(
      "В одном свитке загадка: \"Что можно услышать, но нельзя увидеть?\" (одно слово)",
      Variants(["эхо", "echo"]))))

  const Armory := Room(
    "Старая оружейная комната. На стене висит меч, рядом — небольшая бронзовая шкатулка.",
    [Exit("south", "library")],
    [Sword, BronzeBox],
    None)

  const TreasureRoom := Room(
    "Комната с большим сундуком. Дверь заперта — нужен особый ключ.",
    [Exit("south", "hall")],
    [Chest],
    Some(Puzzle(
      "Дверь защищена кодом. Введите код (подсказка: 2*5 = ?).",
      Single("10"))))

  /** The `ROOMS` dictionary as the game starts. */
  function Rooms(): map<string, Room> {
    map[
      "entrance" := Entrance,
      "hall" := Hall,
      "trap_room" := TrapRoom,
      "library" := Library,
      "armory" := Armory,
      "treasure_room" := TreasureRoom
    ]
  }

  /** Every exit of every room leads to a room of the table. */
  predicate ExitsClosed(rooms: map<string, Room>) {
    forall k, e :: k in rooms && e in rooms[k].exits ==> e.target in rooms
  }

  /** No room lists the same exit label twice (a dictionary has unique keys). */
  predicate UniqueDirections(rooms: map<string, Room>) {
    forall k, i, j :: k in rooms && 0 <= i < j < |rooms[k].exits| ==>
      rooms[k].exits[i].direction != rooms[k].exits[j].direction
  }

  /** No room lists the same item twice. */
  predicate UniqueItems(rooms: map<string, Room>) {
    forall k, i, j :: k in rooms && 0 <= i < j < |rooms[k].items| ==> rooms[k].items[i] != rooms[k].items[j]
  }

  /** In a room whose exit labels are distinct, looking a listed label up finds the target listed with it. */
  lemma {:induction false} ExitTargetOfListed(rooms: map<string, Room>, k: string, direction: string, target: string)
    requires UniqueDirections(rooms) && k in rooms && Exit(direction, target) in rooms[k].exits
    ensures ExitTarget(rooms[k].exits, direction) == Some(target)
  {
    var exits := rooms[k].exits;
    var i :| 0 <= i < |exits| && exits[i] == Exit(direction, target);
    ListedExitFound(exits, i);
  }

  lemma {:induction false} ListedExitFound(exits: seq<Exit>, i: nat)
    requires i < |exits|
    requires forall a, b :: 0 <= a < b < |exits| ==> exits[a].direction != exits[b].direction
    ensures ExitTarget(exits, exits[i].direction) == Some(exits[i].target)
  {
    if i > 0 {
      assert exits[0].direction != exits[i].direction;
      ListedExitFound(exits[1..], i - 1);
    }
  }

  /** The room reached from `from` by following `directions` one exit at a time, if every step has an exit. */
  function Walk(rooms: map<string, Room>, from: string, directions: seq<string>): Option<string>
    decreases |directions|
  {
    if directions == [] then Some(from)
    else if from !in rooms then None
    else match ExitTarget(rooms[from].exits, directions[0])
      case None => None
      case Some(next) => Walk(rooms, next, directions[1..])
  }

  /** A walk through a table whose exits are closed ends in a room of the table. */
  lemma {:induction false} WalkStaysInside(rooms: map<string, Room>, from: string, directions: seq<string>)
    requires ExitsClosed(rooms) && from in rooms
    requires Walk(rooms, from, directions).Some?
    ensures Walk(rooms, from, directions).value in rooms
    decreases |directions|
  {
    if directions != [] {
      var next := ExitTarget(rooms[from].exits, directions[0]).value;
      assert Exit(directions[0], next) in rooms[from].exits;
      WalkStaysInside(rooms, next, directions[1..]);
    }
  }

  lemma TableExitsClosed()
    ensures ExitsClosed(Rooms())
  {
  }

  lemma TableUniqueDirections()
    ensures UniqueDirections(Rooms())
  {
    var rooms := Rooms();
    forall k, i, j | k in rooms && 0 <= i < j < |rooms[k].exits|
      ensures rooms[k].exits[i].direction != rooms[k].exits[j].direction
    {
      assert k in {"entrance", "hall", "trap_room", "library", "armory", "treasure_room"};
    }
  }

  lemma TableUniqueItems()
    ensures UniqueItems(Rooms())
  {
  }

  /** The chest lies in the treasure room and nowhere else, once. */
  lemma ChestOnlyInTreasureRoom()
    ensures forall k :: k in Rooms() && Chest in Rooms()[k].items ==> k == "treasure_room"
    ensures Rooms()["treasure_room"].items == [Chest]
  {
  }

  /** The entrance and the armory have no puzzle; the other four rooms have one each. */
  lemma PuzzlePlacement()
    ensures Rooms().Keys == {"entrance", "hall", "trap_room", "library", "armory", "treasure_room"}
    ensures forall k :: k in Rooms() ==> (Rooms()[k].puzzle.None? <==> k == "entrance" || k == "armory")
  {
  }

  /** The hall and the library store tuples of variants; the trap room and the treasure room one string each. */
  lemma AnswerShapes()
    ensures Rooms()["hall"].puzzle.value.answer == Variants(["10", "десять"])
    ensures Rooms()["library"].puzzle.value.answer == Variants(["эхо", "echo"])
    ensures Rooms()["trap_room"].puzzle.value.answer == Single("step step step")
    ensures Rooms()["treasure_room"].puzzle.value.answer == Single("10")
  {
  }

  /** The treasure room is two steps north of the entrance. */
  lemma TreasureReachable()
    ensures Walk(Rooms(), "entrance", ["north", "north"]) == Some("treasure_room")
  {
    var rooms := Rooms();
    assert rooms["entrance"] == Entrance && rooms["hall"] == Hall;
    assert ExitTarget(Entrance.exits, "north") == Some("hall");
    assert ExitTarget(Hall.exits, "north") == Some("treasure_room");
    WalkTwo(rooms, "entrance", "hall", "treasure_room", "north", "north");
  }

  /** A walk of two directions takes the first exit, then the second. */
  lemma WalkTwo(rooms: map<string, Room>, from: string, mid: string, dest: string, first: string, second: string)
    requires from in rooms && ExitTarget(rooms[from].exits, first) == Some(mid)
    requires mid in rooms && ExitTarget(rooms[mid].exits, second) == Some(dest)
    ensures Walk(rooms, from, [first, second]) == Some(dest)
  {
    assert [second][1..] == [];
    assert Walk(rooms, mid, [second]) == Some(dest);
    assert [first, second][1..] == [second];
  }

  /** Neither key the puzzles and the bronze box grant lies in any room at the start. */
  lemma NoKeyOrCoinInTable()
    ensures forall k :: k in Rooms() ==> TreasureKey !in Rooms()[k].items && GoldCoin !in Rooms()[k].items
  {
    var rooms := Rooms();
    forall k | k in rooms
      ensures TreasureKey !in rooms[k].items && GoldCoin !in rooms[k].items
    {
      assert k in {"entrance", "hall", "trap_room", "library", "armory", "treasure_room"};
    }
  }
}
