/**
 * The room description, the puzzle rule and the treasure-chest rule. Each
 * rule is a function from the state before (and the lines typed at its
 * prompts) to the state after and what it reports; `Session.Game` performs
 * the same rules by assignment.
 */
module Utils {
  import opened Builtins
  import opened Constants
  import opened GameState

  // ---------------------------------------------------------------------
  // describe_current_room
  // ---------------------------------------------------------------------

  /** The lines the room description prints, by kind; the wording is not modelled. */
  datatype Line =
    | Blank
    | Header(name: string)
    | Description(text: string)
    | ItemsLine(list: string)
    | ExitsLine(list: string)
    | PuzzleHint

  /** The one-line part of a description that is printed only when `shown`. */
  function When(shown: bool, line: Line): (r: seq<Line>)
    ensures forall l :: l in r <==> shown && l == line
  {
    if shown then [line] else []
  }

  /**
   * The description of the current room: a blank line, a header with the
   * upper-cased room name, the description and a blank line, then the
   * optional items, exits and hint lines, then a closing blank line.
   */
  function Describe(s: State): (lines: seq<Line>)
    requires InRoom(s)
    ensures |lines| >= 5 && lines[|lines| - 1] == Blank
    ensures lines[..4] == [Blank, Header(Upper(s.current)), Description(Here(s).description), Blank]
  {
    var room := Here(s);
    var head := [Blank, Header(Upper(s.current)), Description(room.description), Blank];
    var lines := head + DescribeBody(room) + [Blank];
    assert lines[..4] == head;
    lines
  }

  /** The optional lines between the header and the closing blank line. */
  function DescribeBody(room: Room): seq<Line> {
    When(room.items != [], ItemsLine(Join(", ", room.items)))
      + When(room.exits != [], ExitsLine(Join(", ", Directions(room.exits))))
      + When(room.puzzle.Some?, PuzzleHint)
  }

  /** A line is in the description exactly when it is in the header, in the optional lines, or is the closing blank line. */
  lemma DescribeParts(s: State, l: Line)
    requires InRoom(s)
    ensures l in Describe(s) <==>
      l in [Blank, Header(Upper(s.current)), Description(Here(s).description)] || l in DescribeBody(Here(s))
  {
  }

  /** The description lists the room's items, joined by ", ", exactly when it holds any, and no other items line. */
  lemma DescribeItems(s: State)
    requires InRoom(s)
    ensures ItemsLine(Join(", ", Here(s).items)) in Describe(s) <==> Here(s).items != []
    ensures forall l :: l in Describe(s) && l.ItemsLine? ==> l.list == Join(", ", Here(s).items)
  {
    DescribeParts(s, ItemsLine(Join(", ", Here(s).items)));
    forall l | l in Describe(s) && l.ItemsLine?
      ensures l.list == Join(", ", Here(s).items)
    {
      DescribeParts(s, l);
    }
  }

  /** The description lists the exits' directions, in order and joined by ", ", exactly when the room has exits, and no other exits line. */
  lemma DescribeExits(s: State)
    requires InRoom(s)
    ensures ExitsLine(Join(", ", Directions(Here(s).exits))) in Describe(s) <==> Here(s).exits != []
    ensures forall l :: l in Describe(s) && l.ExitsLine? ==> l.list == Join(", ", Directions(Here(s).exits))
  {
    DescribeParts(s, ExitsLine(Join(", ", Directions(Here(s).exits))));
    forall l | l in Describe(s) && l.ExitsLine?
      ensures l.list == Join(", ", Directions(Here(s).exits))
    {
      DescribeParts(s, l);
    }
  }

  /** The hint to solve the puzzle is shown exactly while the room's puzzle is there. */
  lemma DescribeHint(s: State)
    requires InRoom(s)
    ensures PuzzleHint in Describe(s) <==> Here(s).puzzle.Some?
  {
    DescribeParts(s, PuzzleHint);
  }

  // ---------------------------------------------------------------------
  // Answer checking: answer.lower() == str(correct_answer).lower()
  // ---------------------------------------------------------------------

  /** `str(correct_answer)`: the string itself, or the tuple's literal text. */
  function AnswerText(answer: Answer): string {
    match answer
    case Single(text) => text
    case Variants(options) => TupleStr(options)
  }

  /** Whether an (already stripped) answer is accepted: equal to the stored answer's text up to case. */
  predicate Accepts(answer: Answer, given: string) {
    Lower(given) == Lower(AnswerText(answer))
  }

  /**
   * A tuple of variants accepts only text that is written like a tuple:
   * opened and closed by parentheses.
   */
  lemma VariantsNeedTupleText(options: seq<string>, given: string)
    requires Accepts(Variants(options), given)
    ensures |given| >= 2 && given[0] == '(' && given[|given| - 1] == ')'
  {
    var text := TupleStr(options);
    assert |given| == |text| >= 2;
    var first, last := given[0], given[|given| - 1];
    assert LowerChar(first) == Lower(text)[0] == LowerChar(text[0]);
    assert LowerChar(last) == Lower(text)[|text| - 1] == LowerChar(text[|text| - 1]);
    OnlyParenLowersToParen(first, '(');
    OnlyParenLowersToParen(last, ')');
  }

  /** No letter lowers to a parenthesis: only the parenthesis itself does. */
  lemma OnlyParenLowersToParen(c: char, paren: char)
    requires paren == '(' || paren == ')'
    requires LowerChar(c) == LowerChar(paren)
    ensures c == paren
  {
  }

  /** So none of the variants on its own solves a tuple puzzle, unless it is itself written like a tuple. */
  lemma LoneVariantRejected(options: seq<string>, i: nat)
    requires i < |options|
    requires |options[i]| < 2 || options[i][0] != '('
    ensures !Accepts(Variants(options), options[i])
  {
    if Accepts(Variants(options), options[i]) {
      VariantsNeedTupleText(options, options[i]);
    }
  }

  /** A stored single string accepts itself typed as stored, all in upper case or all in lower case. */
  lemma SingleAcceptsItself(text: string)
    ensures Accepts(Single(text), text)
    ensures Accepts(Single(text), Upper(text))
    ensures Accepts(Single(text), Lower(text))
  {
    LowerOfUpper(text);
    LowerOfLower(Lower(text));
  }

  /** The hall's puzzle rejects "10" and "десять" but accepts its tuple's literal text. */
  lemma HallAcceptsOnlyTupleText()
    ensures !Accepts(Hall.puzzle.value.answer, "10")
    ensures !Accepts(Hall.puzzle.value.answer, "десять")
    ensures Accepts(Hall.puzzle.value.answer, "('10', 'десять')")
  {
    var options := ["10", "десять"];
    assert Hall.puzzle.value.answer == Variants(options);
    LoneVariantRejected(options, 0);
    LoneVariantRejected(options, 1);
    TupleTextOfHall();
  }

  /** `str(('10', 'десять'))` is the text `('10', 'десять')`. */
  lemma TupleTextOfHall()
    ensures TupleStr(["10", "десять"]) == "('10', 'десять')"
  {
    var options := ["10", "десять"];
    HallVariantsQuoted();
    TupleOfTwo(options, "'10'", "'десять'");
    Parenthesized("'10'" + ", " + "'десять'");
  }

  /** `str` of a pair is its two reprs, comma-separated, in parentheses. */
  lemma TupleOfTwo(xs: seq<string>, a: string, b: string)
    requires Reprs(xs) == [a, b]
    ensures TupleStr(xs) == "(" + a + ", " + b + ")"
  {
    JoinOfTwo(", ", a, b);
  }

  lemma Parenthesized(inner: string)
    requires inner == "'10'" + ", " + "'десять'"
    ensures "(" + inner + ")" == "('10', 'десять')"
  {
  }

  lemma HallVariantsQuoted()
    ensures Reprs(["10", "десять"]) == ["'10'", "'десять'"]
  {
    var quoted := Reprs(["10", "десять"]);
    assert quoted[0] == "'10'" by {
      ReprTen();
    }
    assert quoted[1] == "'десять'" by {
      ReprWord();
    }
  }

  lemma ReprTen()
    ensures Repr("10") == "'10'"
  {
    var w := "10";
    assert Plain(w[0]) && Plain(w[1]);
    ReprOfPlain(w);
  }

  lemma ReprWord()
    ensures Repr("десять") == "'десять'"
  {
    var w := "десять";
    WordIsPlain();
    ReprOfPlain(w);
    WordQuoted();
  }

  /** Every letter of "десять" is one `repr` writes as itself. */
  lemma WordIsPlain()
    ensures forall i :: 0 <= i < |"десять"| ==> Plain("десять"[i])
  {
    var w := "десять";
    assert |w| == 6;
    forall i | 0 <= i < 6 ensures Plain(w[i]) {
      assert '\U{0400}' <= w[i] <= '\U{04FF}';
    }
  }

  lemma WordQuoted()
    ensures "'" + "десять" + "'" == "'десять'"
  {
  }

  lemma JoinOfTwo(sep: string, a: string, b: string)
    ensures Join(sep, [a, b]) == a + sep + b
  {
    assert [a, b][1..] == [b];
  }

  // ---------------------------------------------------------------------
  // solve_puzzle
  // ---------------------------------------------------------------------

  datatype SolveOutcome = NoPuzzle | QuitAtAnswer | Solved(reward: string) | Incorrect

  /**
   * `solve_puzzle` with `input` the line typed at its prompt (an interrupt
   * reads as "quit"). The reward is the treasure key the first time and a
   * gold coin once the key is held, whatever the room.
   */
  function Solve(s: State, input: string): Step<SolveOutcome>
    requires InRoom(s)
  {
    match Here(s).puzzle
    case None => Step(s, NoPuzzle)
    case Some(puzzle) =>
      var given := Strip(input);
      if given == "quit" then Step(s.(gameOver := true), QuitAtAnswer)
      else if Accepts(puzzle.answer, given) then
        var reward := if TreasureKey !in s.inventory then TreasureKey else GoldCoin;
        Step(WithHere(s, Here(s).(puzzle := None)).(inventory := s.inventory + [reward]), Solved(reward))
      else Step(s, Incorrect)
  }

  /** Solving where there is no puzzle changes nothing. */
  lemma SolveWithoutPuzzle(s: State, input: string)
    requires InRoom(s) && Here(s).puzzle.None?
    ensures Solve(s, input) == Step(s, NoPuzzle)
  {
  }

  /** The answer "quit" ends the game and changes nothing else. */
  lemma SolveQuit(s: State, input: string)
    requires InRoom(s) && Here(s).puzzle.Some? && Strip(input) == "quit"
    ensures Solve(s, input) == Step(s.(gameOver := true), QuitAtAnswer)
  {
  }

  /** A wrong answer changes nothing. */
  lemma SolveIncorrect(s: State, input: string)
    requires InRoom(s) && Here(s).puzzle.Some?
    requires Strip(input) != "quit" && !Accepts(Here(s).puzzle.value.answer, Strip(input))
    ensures Solve(s, input) == Step(s, Incorrect)
  {
  }

  /**
   * A right answer clears the room's puzzle and appends exactly one reward:
   * the treasure key if it is not held, a gold coin otherwise. Nothing else
   * changes.
   */
  lemma SolveCorrect(s: State, input: string)
    requires InRoom(s) && Here(s).puzzle.Some?
    requires Strip(input) != "quit" && Accepts(Here(s).puzzle.value.answer, Strip(input))
    ensures var r := Solve(s, input);
      && r.outcome == Solved(if TreasureKey in s.inventory then GoldCoin else TreasureKey)
      && r.next.inventory == s.inventory + [r.outcome.reward]
      && r.next.rooms == s.rooms[s.current := Here(s).(puzzle := None)]
      && r.next.current == s.current && r.next.steps == s.steps && r.next.gameOver == s.gameOver
  {
  }

  /** The puzzle is solved exactly when a puzzle is there and the stripped answer is accepted and is not "quit". */
  lemma SolvedExactly(s: State, input: string)
    requires InRoom(s)
    ensures Solve(s, input).outcome.Solved? <==>
      Here(s).puzzle.Some? && Strip(input) != "quit" && Accepts(Here(s).puzzle.value.answer, Strip(input))
  {
  }

  /** Solving never makes a second treasure key: the count only goes from none to one. */
  lemma SolveNeverDuplicatesTreasureKey(s: State, input: string)
    requires InRoom(s)
    ensures var held := multiset(Solve(s, input).next.inventory)[TreasureKey];
      held == multiset(s.inventory)[TreasureKey] || (multiset(s.inventory)[TreasureKey] == 0 && held == 1)
  {
    var r := Solve(s, input);
    if r.outcome.Solved? {
      assert multiset(r.next.inventory) == multiset(s.inventory) + multiset{r.outcome.reward};
    }
  }

  /** Once a puzzle is solved, solving again in that room reports no puzzle and rewards nothing. */
  lemma SolveTwice(s: State, first: string, second: string)
    requires InRoom(s) && Solve(s, first).outcome.Solved?
    ensures InRoom(Solve(s, first).next)
    ensures var t := Solve(s, first).next; Solve(t, second) == Step(t, NoPuzzle)
  {
  }

  /**
   * Solving is an allowed change that touches only the current room's puzzle,
   * adds at most one item to the inventory, and stays in the room.
   */
  lemma SolveEvolves(s: State, input: string)
    requires InRoom(s)
    ensures Evolves(s, Solve(s, input).next) && Solve(s, input).next.current == s.current
    ensures var t := Solve(s, input).next;
      && (forall k :: k in s.rooms && k != s.current ==> t.rooms[k] == s.rooms[k])
      && Here(t) == Here(s).(puzzle := Here(t).puzzle)
      && s.inventory <= t.inventory && |t.inventory| <= |s.inventory| + 1
      && t.steps == s.steps
  {
    if Here(s).puzzle.None? {
      SolveWithoutPuzzle(s, input);
      EvolvesReflexive(s);
    } else if Strip(input) == "quit" {
      SolveQuit(s, input);
    } else if Accepts(Here(s).puzzle.value.answer, Strip(input)) {
      SolveCorrect(s, input);
      EvolvesByHere(s, Here(s).(puzzle := None), Solve(s, input).next);
    } else {
      SolveIncorrect(s, input);
      EvolvesReflexive(s);
    }
  }

  // ---------------------------------------------------------------------
  // attempt_open_treasure
  // ---------------------------------------------------------------------

  datatype OpenOutcome =
    | NoChest
    | OpenedWithKey
    | OpenQuit
    | SteppedBack
    | MechanismBroken
    | OpenedWithCode
    | WrongCode

  /** The answers that count as "yes" at the confirmation prompt. */
  const Confirmations: seq<string> := ["да", "yes", "y"]

  /** The chest leaves the current room and the game is won. */
  function OpenChest(s: State): (t: State)
    requires InRoom(s) && Chest in Here(s).items
  {
    WithHere(s, Here(s).(items := RemoveFirst(Here(s).items, Chest))).(gameOver := true)
  }

  /**
   * `attempt_open_treasure`, with `choice` and `code` the lines typed at its
   * confirmation and code prompts (each is read only if the rule gets that
   * far; an interrupt reads as "quit").
   */
  function OpenTreasure(s: State, choice: string, code: string): Step<OpenOutcome>
    requires InRoom(s)
  {
    var room := Here(s);
    if Chest !in room.items then Step(s, NoChest)
    else if TreasureKey in s.inventory then Step(OpenChest(s), OpenedWithKey)
    else
      var answer := Lower(Strip(choice));
      if answer == "quit" then Step(s.(gameOver := true), OpenQuit)
      else if answer !in Confirmations then Step(s, SteppedBack)
      else match room.puzzle
        case None => Step(s, MechanismBroken)
        case Some(puzzle) =>
          var given := Strip(code);
          if given == "quit" then Step(s.(gameOver := true), OpenQuit)
          else if Accepts(puzzle.answer, given) then Step(OpenChest(s), OpenedWithCode)
          else Step(s, WrongCode)
  }

  /** Opening the chest takes one chest out of the room, ends the game, and leaves the inventory, the puzzle and the rest alone. */
  lemma OpenChestEffect(s: State)
    requires InRoom(s) && Chest in Here(s).items
    ensures var t := OpenChest(s);
      && InRoom(t) && t.gameOver
      && multiset(Here(t).items) == multiset(Here(s).items) - multiset{Chest}
      && Here(t).puzzle == Here(s).puzzle && Here(t).exits == Here(s).exits
      && t.inventory == s.inventory && t.current == s.current && t.steps == s.steps
      && (forall k :: k in s.rooms && k != s.current ==> k in t.rooms && t.rooms[k] == s.rooms[k])
  {
    RemoveFirstCount(Here(s).items, Chest);
  }

  /** Without a chest in the room nothing happens. */
  lemma OpenWithoutChest(s: State, choice: string, code: string)
    requires InRoom(s) && Chest !in Here(s).items
    ensures OpenTreasure(s, choice, code) == Step(s, NoChest)
  {
  }

  /** Holding the treasure key opens the chest at once, whatever is typed. */
  lemma OpenWithKey(s: State, choice: string, code: string)
    requires InRoom(s) && Chest in Here(s).items && TreasureKey in s.inventory
    ensures OpenTreasure(s, choice, code) == Step(OpenChest(s), OpenedWithKey)
    ensures TreasureKey in OpenChest(s).inventory
  {
  }

  /**
   * Without the key: "quit" at the confirmation prompt (in any case) ends the
   * game only; any other answer but да, yes or y steps back; a missing
   * puzzle reports the mechanism broken; "quit" at the code prompt ends the
   * game only; the right code opens the chest; a wrong code changes nothing.
   */
  lemma OpenWithoutKey(s: State, choice: string, code: string)
    requires InRoom(s) && Chest in Here(s).items && TreasureKey !in s.inventory
    ensures var r := OpenTreasure(s, choice, code);
      var answer := Lower(Strip(choice));
      && (answer == "quit" ==> r == Step(s.(gameOver := true), OpenQuit))
      && (answer != "quit" && answer != "да" && answer != "yes" && answer != "y" ==> r == Step(s, SteppedBack))
      && (answer in Confirmations && Here(s).puzzle.None? ==> r == Step(s, MechanismBroken))
      && (answer in Confirmations && Here(s).puzzle.Some? ==>
            (Strip(code) == "quit" ==> r == Step(s.(gameOver := true), OpenQuit))
            && (Strip(code) != "quit" && Accepts(Here(s).puzzle.value.answer, Strip(code)) ==>
                  r == Step(OpenChest(s), OpenedWithCode))
            && (Strip(code) != "quit" && !Accepts(Here(s).puzzle.value.answer, Strip(code)) ==>
                  r == Step(s, WrongCode)))
  {
  }

  /** Every outcome of the treasure rule leaves the state as it was, only ends the game, or opens the chest. */
  lemma OpenShape(s: State, choice: string, code: string)
    requires InRoom(s)
    ensures var r := OpenTreasure(s, choice, code);
      if r.outcome == OpenedWithKey || r.outcome == OpenedWithCode
      then Chest in Here(s).items && r.next == OpenChest(s)
      else r.next == s || r.next == s.(gameOver := true)
  {
    if Chest in Here(s).items && TreasureKey !in s.inventory {
      var answer := Lower(Strip(choice));
      if answer != "quit" && answer in Confirmations && Here(s).puzzle.Some? {
        var given := Strip(code);
        if given != "quit" && Accepts(Here(s).puzzle.value.answer, given) {
          assert OpenTreasure(s, choice, code) == Step(OpenChest(s), OpenedWithCode);
        }
      }
    }
  }

  /** The chest leaves a room only when the game ends, and only through the key or the right code. */
  lemma ChestLeavesOnlyOnWin(s: State, choice: string, code: string)
    requires InRoom(s)
    ensures var r := OpenTreasure(s, choice, code);
      r.next.rooms != s.rooms <==> r.outcome == OpenedWithKey || r.outcome == OpenedWithCode
    ensures var r := OpenTreasure(s, choice, code);
      r.next.rooms != s.rooms ==> r.next.gameOver
  {
    var r := OpenTreasure(s, choice, code);
    OpenShape(s, choice, code);
    if r.outcome == OpenedWithKey || r.outcome == OpenedWithCode {
      OpenChestEffect(s);
      assert multiset(r.next.rooms[s.current].items) != multiset(s.rooms[s.current].items);
    }
  }

  /** The treasure rule is an allowed change: it removes the chest or sets the flag, and nothing else. */
  lemma OpenEvolves(s: State, choice: string, code: string)
    requires InRoom(s)
    ensures Evolves(s, OpenTreasure(s, choice, code).next)
    ensures OpenTreasure(s, choice, code).next.current == s.current
    ensures var t := OpenTreasure(s, choice, code).next;
      && t.inventory == s.inventory && t.steps == s.steps
      && (forall k :: k in s.rooms && k != s.current ==> t.rooms[k] == s.rooms[k])
      && Here(t) == Here(s).(items := Here(t).items)
      && (t.rooms == s.rooms || Here(t).items == RemoveFirst(Here(s).items, Chest))
  {
    var r := OpenTreasure(s, choice, code);
    OpenShape(s, choice, code);
    if r.outcome == OpenedWithKey || r.outcome == OpenedWithCode {
      OpenChestEffect(s);
      var room := Here(s).(items := RemoveFirst(Here(s).items, Chest));
      EvolvesByHere(s, room, r.next);
    }
  }
}
