/**
 * Short plays through the rules, in the rooms of the starting table.
 */
module Scenarios {
  import opened Builtins
  import opened Constants
  import opened GameState
  import opened Utils
  import opened PlayerActions

  /** Taking the torch at the entrance puts it in the inventory and empties the entrance. */
  lemma TakeTorchAtEntrance()
    ensures InRoom(Initial())
    ensures var r := Take(Initial(), Torch);
      && r.outcome == Taken
      && r.next.inventory == [Torch]
      && r.next.rooms["entrance"].items == []
      && ShowInventory(r.next.inventory) == Holding("torch")
  {
    InitialValid();
  }

  // The lines typed below, as the prompts compare them.

  /** The hall's tuple text, typed with blanks around it. */
  lemma TypedTuple()
    ensures Strip("  ('10', 'десять') ") == "('10', 'десять')"
  {
    var typed := "  ('10', 'десять') ";
    assert IsSpace(typed[0]) && IsSpace(typed[1]) && !IsSpace(typed[2]);
    assert SkipSpaces(typed, 0) == 2;
    assert IsSpace(typed[|typed| - 1]) && !IsSpace(typed[|typed| - 2]);
    assert BackSpaces(typed, 2, |typed|) == |typed| - 1;
    assert typed[2..|typed| - 1] == "('10', 'десять')";
  }
  /** Declining at the confirmation prompt. */
  lemma DeclineLine() ensures Lower(Strip("нет")) == "нет" {
    StripUntrimmed("нет");
    LowerOfLower("нет");
  }
  /** Agreeing at the confirmation prompt. */
  lemma ConfirmLine() ensures Lower(Strip("yes")) == "yes" {
    StripUntrimmed("yes");
    LowerOfLower("yes");
  }
  lemma TenLine() ensures Strip("10") == "10" {
    StripUntrimmed("10");
  }

  /**
   * In the hall with nothing held, "10" is a wrong answer; the tuple's
   * literal text, typed with surrounding blanks, solves the puzzle for the
   * treasure key; solving again finds no puzzle.
   */
  lemma SolveInHall(s: State)
    requires InRoom(s) && Here(s) == Hall && s.inventory == []
    ensures Solve(s, "10") == Step(s, Incorrect)
    ensures var r := Solve(s, "  ('10', 'десять') ");
      && r.outcome == Solved(TreasureKey)
      && r.next.inventory == [TreasureKey]
      && InRoom(r.next)
      && Solve(r.next, "10") == Step(r.next, NoPuzzle)
  {
    HallAcceptsOnlyTupleText();
    TenLine();
    TypedTuple();
    SolveIncorrect(s, "10");
    SolveCorrect(s, "  ('10', 'десять') ");
    SolveTwice(s, "  ('10', 'десять') ", "10");
  }

  /** In the treasure room without the key, declining at the confirmation prompt leaves everything as it was. */
  lemma DeclineInTreasureRoom(s: State)
    requires InRoom(s) && Here(s) == TreasureRoom && TreasureKey !in s.inventory
    ensures OpenTreasure(s, "нет", "10") == Step(s, SteppedBack)
  {
    DeclineLine();
    assert Chest in Here(s).items;
    OpenWithoutKey(s, "нет", "10");
  }

  /**
   * In the treasure room without the key, agreeing and typing the code "10"
   * opens the chest, leaves the room empty and ends the game.
   */
  lemma CodeInTreasureRoom(s: State)
    requires InRoom(s) && Here(s) == TreasureRoom && TreasureKey !in s.inventory
    ensures var r := OpenTreasure(s, "yes", "10");
      && r.outcome == OpenedWithCode
      && r.next.gameOver
      && InRoom(r.next)
      && Here(r.next).items == []
  {
    ConfirmLine();
    TenLine();
    assert Chest in Here(s).items;
    assert Here(s).puzzle.value.answer == Single("10");
    assert Accepts(Single("10"), "10");
    OpenWithoutKey(s, "yes", "10");
    OpenChestEffect(s);
    var items := Here(OpenChest(s)).items;
    assert multiset(items) == multiset{};
  }
}
