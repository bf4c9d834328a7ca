/**
 * The trainer's session state (the `state` object) and the events that
 * change it: importing a bank, applying the settings, building a board,
 * opening a clue, the narration, the buzz window and its ticks, the blank
 * delay, scoring, and the back-to-board buttons. Time is an integer
 * number of milliseconds passed in by each event; the speech engine and
 * the timers are events too.
 */
module Session {
  import opened Wrappers
  import opened Text
  import opened Board
  import opened Results

  /** The three screens; showView makes exactly one visible. */
  datatype View = BoardView | ClueView | ResultsView

  /** state.active: the cell opened last and its clue. */
  datatype Active = Active(catIndex: nat, value: int, clue: Clue)

  /** Where the clue flow of the active clue stands. */
  datatype Phase =
    | Idle                        // no clue flow yet
    | Narrating(startedAt: int)   // speakAsync pending since startedAt; its fallback timer is set then
    | Countdown(deadline: int)    // the buzz window is open until deadline
    | BlankDelay(revealAt: int)   // buzzed; the blank screen stays until revealAt
    | AwaitingScore               // response shown with "Got it" / "Missed"
    | AwaitingAck                 // window expired; response shown with "Back to board"

  /** The ladder values as a set. */
  const VALUE_SET: set<int> := {200, 400, 600, 800, 1000}

  lemma ValueSetIsLadder()
    ensures VALUE_SET == set v | v in VALUES
    ensures |VALUE_SET| == |VALUES|
  {
  }

  /** The cells used on the board: the sizes of the usedValues sets, added up. */
  function UsedTotal(cats: seq<BoardCategory>): nat
  {
    if cats == [] then 0 else UsedTotal(cats[..|cats| - 1]) + |cats[|cats| - 1].usedValues|
  }

  /** Replacing one column changes the used total by the change in that column's used set. */
  lemma {:induction false} UsedTotalUpdate(cats: seq<BoardCategory>, k: nat, c: BoardCategory)
    requires k < |cats|
    ensures UsedTotal(cats[k := c]) == UsedTotal(cats) - |cats[k].usedValues| + |c.usedValues|
    decreases |cats|
  {
    var init, last := cats[..|cats| - 1], cats[|cats| - 1];
    var cats' := cats[k := c];
    assert cats'[..|cats'| - 1] == if k == |cats| - 1 then init else init[k := c];
    if k < |cats| - 1 {
      UsedTotalUpdate(init, k, c);
    }
  }

  lemma SubsetCard(a: set<int>, b: set<int>)
    requires a <= b
    ensures |a| <= |b|
  {
    assert b == (b - a) + a;
  }

  /** With every used set inside the ladder, at most five cells per column are used. */
  lemma {:induction false} UsedTotalBound(cats: seq<BoardCategory>)
    requires ColumnsOk(cats)
    ensures UsedTotal(cats) <= |cats| * 5
    decreases |cats|
  {
    if cats != [] {
      UsedTotalBound(cats[..|cats| - 1]);
      SubsetCard(cats[|cats| - 1].usedValues, VALUE_SET);
    }
  }

  /** A fresh board has no used cells. */
  lemma {:induction false} UsedTotalFresh(cats: seq<BoardCategory>)
    requires forall k :: 0 <= k < |cats| ==> cats[k].usedValues == {}
    ensures UsedTotal(cats) == 0
    decreases |cats|
  {
    if cats != [] {
      UsedTotalFresh(cats[..|cats| - 1]);
    }
  }

  /** The text runClueFlow speaks: "<category>. For <value>. <clue>". */
  function NarrationText(c: Clue): (t: string)
    ensures var head, value := NormalizeCategory(c.category), IntToString(c.value);
      && |t| == |head| + 6 + |value| + 2 + |c.clue|
      && t[..|head|] == head
      && t[|head|..|head| + 6] == ". For "
      && t[|head| + 6..|head| + 6 + |value|] == value
      && t[|head| + 6 + |value|..|head| + 8 + |value|] == ". "
      && t[|t| - |c.clue|..] == c.clue
  {
    NormalizeCategory(c.category) + ". For " + IntToString(c.value) + ". " + c.clue
  }

  /**
   * When speakAsync resolves without a speech end event: the estimate plus
   * 500 ms after the start. The class takes the time of the narration's end
   * from its caller (NarrationEnds); this bounds the time the fallback
   * timer supplies when the speech engine sends no event.
   */
  function FallbackAt(startedAt: int, c: Clue): (t: int)
    ensures startedAt + 1700 <= t <= startedAt + 12500
  {
    startedAt + EstimateSpeechMs(NarrationText(c)) + 500
  }

  // Which screen shows once a cell is resolved (see README, Findings).

  /**
   * As written: the screens shown in turn once a cell is resolved, and the
   * one left showing. endBoard (from markCellUsed) shows the results when
   * the board ended; the caller then shows the board.
   */
  function ViewsShownAsWritten(ended: bool): (shown: seq<View>)
    ensures |shown| > 0
  {
    (if ended then [ResultsView] else []) + [BoardView]
  }

  function ViewAfterCellResolvedAsWritten(ended: bool): View
  {
    var shown := ViewsShownAsWritten(ended);
    shown[|shown| - 1]
  }

  /**
   * As written, the results screen is shown after the last cell and then
   * hidden again at once: the board is left showing whether or not the
   * board ended, where the intended screen is the results.
   */
  lemma ResultsHiddenAsWritten(ended: bool)
    ensures ended ==> ResultsView in ViewsShownAsWritten(ended)
    ensures ViewAfterCellResolvedAsWritten(ended) == BoardView
    ensures ended ==> ViewAfterCellResolvedAsWritten(ended) != ViewAfterCellResolved(ended)
  {
  }

  /** As intended: the results after the last cell, the board otherwise. */
  function ViewAfterCellResolved(ended: bool): (v: View)
    ensures v == ResultsView <==> ended
    ensures v != ClueView
  {
    if ended then ResultsView else BoardView
  }

  /**
   * The bookkeeping markCellUsed and buildBoard keep: usedCount counts the
   * used cells, totalCells is five per column, and every column holds a
   * clue per ladder value and uses only ladder values.
   */
  ghost predicate BoardOk(cats: seq<BoardCategory>, usedCount: int, totalCells: int)
  {
    && usedCount == UsedTotal(cats)
    && totalCells == |cats| * 5
    && ColumnsOk(cats)
  }

  /** A column uses only ladder values and holds a clue for each of them. */
  predicate ColumnOk(c: BoardCategory)
  {
    c.usedValues <= VALUE_SET && c.cluesByValue.Keys == VALUE_SET
  }

  /** Every column is a ColumnOk one. */
  predicate ColumnsOk(cats: seq<BoardCategory>)
  {
    cats == [] || (ColumnsOk(cats[..|cats| - 1]) && ColumnOk(cats[|cats| - 1]))
  }

  lemma {:induction false} ColumnsOkAt(cats: seq<BoardCategory>, k: nat)
    requires ColumnsOk(cats) && k < |cats|
    ensures ColumnOk(cats[k])
    decreases |cats|
  {
    if k < |cats| - 1 {
      ColumnsOkAt(cats[..|cats| - 1], k);
    }
  }

  lemma {:induction false} ColumnsOkAll(cats: seq<BoardCategory>)
    requires forall k :: 0 <= k < |cats| ==> ColumnOk(cats[k])
    ensures ColumnsOk(cats)
    decreases |cats|
  {
    if cats != [] {
      ColumnsOkAll(cats[..|cats| - 1]);
    }
  }

  lemma {:induction false} ColumnsOkUpdate(cats: seq<BoardCategory>, k: nat, c: BoardCategory)
    requires ColumnsOk(cats) && k < |cats| && ColumnOk(c)
    ensures ColumnsOk(cats[k := c])
    decreases |cats|
  {
    var cats' := cats[k := c];
    if k < |cats| - 1 {
      ColumnsOkUpdate(cats[..|cats| - 1], k, c);
      assert cats'[..|cats'| - 1] == cats[..|cats| - 1][k := c];
    } else {
      assert cats'[..|cats'| - 1] == cats[..|cats| - 1];
    }
  }

  /**
   * The clue flow hangs together: the active cell is on the ladder, the
   * clue screen belongs to a column of the board, the `done` flag is down
   * exactly while narrating, and no buzz has been taken in an open window.
   */
  predicate FlowOk(columns: nat, active: Option<Active>, phase: Phase, narrationDone: bool, buzzed: bool, view: View)
  {
    && (active.Some? ==> active.value.value in VALUES)
    && (view == ClueView ==> active.Some? && active.value.catIndex < columns)
    && (phase.Narrating? <==> !narrationDone)
    && (phase.Countdown? ==> !buzzed)
    && (phase != Idle ==> active.Some?)
  }

  /** A board buildBoard plans, with nothing used, satisfies the bookkeeping. */
  lemma PlannedBoardOk(clues: seq<Clue>, cats: seq<BoardCategory>, n: int)
    requires IsBoardFor(clues, cats, n)
    ensures BoardOk(cats, 0, n * 5)
  {
    ValueSetIsLadder();
    UsedTotalFresh(cats);
    ColumnsOkAll(cats);
  }

  /** A board buildBoard builds, with nothing used, satisfies the bookkeeping. */
  lemma BuiltBoardOk(bank: seq<Clue>, countInput: Option<int>, catDraw: nat -> nat, clueDraw: (nat, int) -> nat)
    requires BoardFor(bank, countInput, catDraw, clueDraw).Success?
    ensures BoardOk(BoardFor(bank, countInput, catDraw, clueDraw).value, 0, CategoryCount(countInput) * 5)
  {
    BoardForCases(bank, countInput, catDraw, clueDraw);
    PlannedBoardOk(EligibleClues(bank), BoardFor(bank, countInput, catDraw, clueDraw).value, CategoryCount(countInput));
  }

  class Trainer {
    var bank: seq<Clue>
    var boardCats: seq<BoardCategory>
    var usedCount: int
    var totalCells: int
    var active: Option<Active>
    var score: int
    var outcomes: seq<Outcome>
    var buzzWindowMs: int
    var blankMs: int
    var phase: Phase
    /** The `done` flag of the pending speakAsync promise. */
    var narrationDone: bool
    /** The `buzzed` flag of the open buzz window. */
    var buzzed: bool
    var view: View

    /** The board, its used-cell count and its cell count agree; see BoardOk and FlowOk. */
    ghost predicate Valid()
      reads this
    {
      && BoardOk(boardCats, usedCount, totalCells)
      && score == Score(outcomes)
      && FlowOk(|boardCats|, active, phase, narrationDone, buzzed, view)
    }

    /** The initial `state` object. */
    constructor ()
      ensures Valid()
      ensures bank == [] && boardCats == [] && usedCount == 0 && totalCells == 0
      ensures active == None && score == 0 && outcomes == []
      ensures buzzWindowMs == 5000 && blankMs == 2000
      ensures phase == Idle && narrationDone && !buzzed && view == BoardView
    {
      bank, boardCats, usedCount, totalCells := [], [], 0, 0;
      active, score, outcomes := None, 0, [];
      buzzWindowMs, blankMs := 5000, 2000;
      phase, narrationDone, buzzed, view := Idle, true, false, BoardView;
    }

    /** The used cells never outnumber the cells of the board. */
    lemma UsedWithinBoard()
      requires Valid()
      ensures 0 <= usedCount <= totalCells
    {
      UsedTotalBound(boardCats);
    }

    /** The end of a file import: an empty result is an error and keeps the bank. */
    method LoadBank(cleaned: seq<Clue>) returns (ok: bool)
      requires Valid()
      modifies this`bank
      ensures Valid()
      ensures ok <==> cleaned != []
      ensures bank == if ok then cleaned else old(bank)
    {
      ok := cleaned != [];
      if ok {
        bank := cleaned;
      }
    }

    /** applySettingsFromUI: the window in whole seconds clamped to 1..15 (5 if not a number), the blank delay clamped to 250..5000 ms (2000). */
    method ApplySettings(windowSec: Option<int>, blank: Option<int>)
      requires Valid()
      modifies this`buzzWindowMs, this`blankMs
      ensures Valid()
      ensures buzzWindowMs == ClampNum(windowSec, 1, 15, 5) * 1000
      ensures blankMs == ClampNum(blank, 250, 5000, 2000)
      ensures 1000 <= buzzWindowMs <= 15000 && 250 <= blankMs <= 5000
    {
      buzzWindowMs := ClampNum(windowSec, 1, 15, 5) * 1000;
      blankMs := ClampNum(blank, 250, 5000, 2000);
    }

    /**
     * buildBoard from either New Board button. An error leaves the board,
     * the counts, the outcome log and the score as they were (the button
     * on the results screen still switches to the board screen); success
     * installs the planned board with nothing used, five cells per column,
     * an empty log and a zero score.
     */
    method BuildBoard(countInput: Option<int>, catDraw: nat -> nat, clueDraw: (nat, int) -> nat, fromResults: bool)
      returns (err: Option<BoardError>)
      requires Valid()
      modifies this`boardCats, this`usedCount, this`totalCells, this`outcomes, this`score, this`view
      ensures Valid()
      ensures var r := BoardFor(bank, countInput, catDraw, clueDraw);
        r.Failure? ==>
          && err == Some(r.error)
          && boardCats == old(boardCats) && usedCount == old(usedCount)
          && totalCells == old(totalCells) && outcomes == old(outcomes) && score == old(score)
          && view == (if fromResults then BoardView else old(view))
      ensures var r := BoardFor(bank, countInput, catDraw, clueDraw);
        r.Success? ==>
          && err == None && boardCats == r.value
          && usedCount == 0 && totalCells == CategoryCount(countInput) * 5
          && outcomes == [] && score == 0 && view == BoardView
    {
      var r := PlanBoard(bank, countInput, catDraw, clueDraw);
      if r.Failure? {
        if fromResults {
          view := BoardView;
        }
        return Some(r.error);
      }
      BuiltBoardOk(bank, countInput, catDraw, clueDraw);
      Install(r.value, CategoryCount(countInput));
      err := None;
    }

    /** The success half of buildBoard: the new board, nothing used, an empty log, a zero score, the board screen. */
    method Install(cats: seq<BoardCategory>, n: int)
      requires Valid()
      requires BoardOk(cats, 0, n * 5)
      modifies this`boardCats, this`usedCount, this`totalCells, this`outcomes, this`score, this`view
      ensures Valid()
      ensures boardCats == cats && usedCount == 0 && totalCells == n * 5
      ensures outcomes == [] && score == 0 && view == BoardView
    {
      boardCats, usedCount, totalCells := cats, 0, n * 5;
      outcomes, score, view := [], 0, BoardView;
    }

    /**
     * markCellUsed: the value joins the column's used set and the count
     * goes up only if it was not there yet; the board ends exactly when
     * the count reaches the number of cells, and then endBoard shows the
     * results screen (EndBoard gives its content).
     */
    method MarkCellUsed(catIndex: nat, value: int) returns (ended: bool)
      requires Valid()
      requires catIndex < |boardCats| && value in VALUES
      modifies this`boardCats, this`usedCount, this`view
      ensures Valid()
      ensures var cat := old(boardCats[catIndex]);
        boardCats == old(boardCats)[catIndex := cat.(usedValues := cat.usedValues + {value})]
      ensures usedCount == old(usedCount) + (if value in old(boardCats[catIndex].usedValues) then 0 else 1)
      ensures value in old(boardCats[catIndex].usedValues) ==> boardCats == old(boardCats) && usedCount == old(usedCount)
      ensures ended <==> usedCount >= totalCells
      ensures view == if ended then ResultsView else old(view)
    {
      var cat := boardCats[catIndex];
      var isNew := value !in cat.usedValues;
      var cat' := cat.(usedValues := cat.usedValues + {value});
      ColumnsOkAt(boardCats, catIndex);
      ColumnsOkUpdate(boardCats, catIndex, cat');
      UsedTotalUpdate(boardCats, catIndex, cat');
      boardCats := boardCats[catIndex := cat'];
      if isNew {
        usedCount := usedCount + 1;
      } else {
        assert cat' == cat;
      }
      ended := usedCount >= totalCells;
      if ended {
        view := ResultsView;
      }
    }

    /** endBoard: the results screen rendered from the outcome log, the cell count and the score. */
    method EndBoard() returns (results: Summary)
      requires Valid()
      ensures results == Summarize(outcomes, totalCells, score)
      ensures results.total == totalCells && results.score == Score(outcomes)
      ensures results.correct + results.wrong + results.skipped == |outcomes|
    {
      results := RenderResults(outcomes, totalCells, score);
      SummaryAddsUp(outcomes, totalCells, score);
    }

    /**
     * openClue and the start of runClueFlow, from the button of a cell not
     * yet used (renderBoard disables the others): the cell becomes active, the
     * clue screen shows, and the narration starts (with speech off or
     * unavailable it resolves at once and the buzz window opens).
     */
    method OpenClue(catIndex: nat, value: int, now: int, speech: bool)
      requires Valid()
      requires catIndex < |boardCats| && value in VALUES
      requires value !in boardCats[catIndex].usedValues
      modifies this`active, this`phase, this`narrationDone, this`buzzed, this`view
      ensures Valid()
      ensures value in boardCats[catIndex].cluesByValue
        && active == Some(Active(catIndex, value, boardCats[catIndex].cluesByValue[value]))
      ensures phase == if speech then Narrating(now) else Countdown(now + buzzWindowMs)
      ensures narrationDone == !speech && !buzzed && view == ClueView
    {
      ColumnsOkAt(boardCats, catIndex);
      var clue := boardCats[catIndex].cluesByValue[value];
      active := Some(Active(catIndex, value, clue));
      view := ClueView;
      buzzed := false;
      if speech {
        phase := Narrating(now);
        narrationDone := false;
      } else {
        phase := Countdown(now + buzzWindowMs);
        narrationDone := true;
      }
    }

    /**
     * The narration resolving: the speech engine's end or error event, or
     * the fallback timer (FallbackAt after the start). The first one opens
     * the buzz window; the `done` flag makes any later one do nothing.
     */
    method NarrationEnds(now: int) returns (started: bool)
      requires Valid()
      modifies this`phase, this`narrationDone, this`buzzed
      ensures Valid()
      ensures started <==> !old(narrationDone)
      ensures started ==> old(phase).Narrating? && phase == Countdown(now + buzzWindowMs) && narrationDone && !buzzed
      ensures !started ==> phase == old(phase) && narrationDone == old(narrationDone) && buzzed == old(buzzed)
    {
      started := !narrationDone;
      if started {
        narrationDone := true;
        phase := Countdown(now + buzzWindowMs);
        buzzed := false;
      }
    }

    /**
     * An animation-frame tick of the buzz window: once the deadline has
     * passed, revealNoBuzz logs a skipped outcome and offers the way back.
     * A column index the current board no longer has stops the flow with
     * nothing logged (the lookup of its name throws).
     */
    method Tick(now: int) returns (expired: bool)
      requires Valid()
      modifies this`outcomes, this`score, this`phase
      ensures Valid()
      ensures score == old(score)
      ensures expired <==> old(phase).Countdown? && now >= old(phase).deadline
      ensures !expired ==> phase == old(phase) && outcomes == old(outcomes)
      ensures expired && active.value.catIndex < |boardCats| ==>
        var a := active.value;
        && outcomes == old(outcomes) + [Outcome(Skipped, boardCats[a.catIndex].name, a.value, a.clue.clue, a.clue.response)]
        && phase == AwaitingAck
      ensures expired && active.value.catIndex >= |boardCats| ==> outcomes == old(outcomes) && phase == Idle
    {
      expired := phase.Countdown? && now >= phase.deadline;
      if expired {
        var a := active.value;
        if a.catIndex < |boardCats| {
          LogOutcome(Outcome(Skipped, boardCats[a.catIndex].name, a.value, a.clue.clue, a.clue.response));
          phase := AwaitingAck;
        } else {
          phase := Idle;
        }
      }
    }

    /** logOutcome, with the score change of setScore that goes with it (none for a skipped clue). */
    method LogOutcome(o: Outcome)
      requires Valid()
      modifies this`outcomes, this`score
      ensures Valid()
      ensures outcomes == old(outcomes) + [o] && score == old(score) + Delta(o)
    {
      ScoreAppend(outcomes, o);
      outcomes := outcomes + [o];
      score := score + Delta(o);
    }

    /** The buzz button: accepted once per window; the blank delay starts. A second press does nothing. */
    method Buzz(now: int) returns (accepted: bool)
      requires Valid()
      modifies this`buzzed, this`phase
      ensures Valid()
      ensures accepted <==> old(phase).Countdown? && !old(buzzed)
      ensures accepted ==> narrationDone && buzzed && phase == BlankDelay(now + blankMs)
      ensures !accepted ==> buzzed == old(buzzed) && phase == old(phase)
    {
      accepted := phase.Countdown? && !buzzed;
      if accepted {
        buzzed := true;
        phase := BlankDelay(now + blankMs);
      }
    }

    /** The blank-delay timer of handleBuzz: the response and the scoring buttons appear. */
    method BlankElapsed(now: int) returns (revealed: bool)
      requires Valid()
      modifies this`phase
      ensures Valid()
      ensures revealed <==> old(phase).BlankDelay? && now >= old(phase).revealAt
      ensures phase == if revealed then AwaitingScore else old(phase)
    {
      revealed := phase.BlankDelay? && now >= phase.revealAt;
      if revealed {
        phase := AwaitingScore;
      }
    }

    /**
     * markCellUsed followed by the caller's showView(boardView): the cell is
     * used and the board is left showing, even when endBoard has just shown
     * the results (README, Findings).
     */
    method ResolveCell(catIndex: nat, value: int) returns (ended: bool)
      requires Valid()
      requires catIndex < |boardCats| && value in VALUES
      modifies this`boardCats, this`usedCount, this`view
      ensures Valid()
      ensures boardCats == old(boardCats)[catIndex := old(boardCats[catIndex]).(usedValues := old(boardCats[catIndex]).usedValues + {value})]
      ensures usedCount == old(usedCount) + (if value in old(boardCats[catIndex].usedValues) then 0 else 1)
      ensures ended <==> usedCount >= totalCells
      ensures view == ViewAfterCellResolvedAsWritten(ended)
    {
      ended := MarkCellUsed(catIndex, value);
      view := BoardView;
    }

    /**
     * finalizeBuzzResult, from "Got it" or "Missed": the value is added or
     * taken off, one correct or wrong outcome is logged and the cell is
     * used; the board is left showing, even after the last cell, where
     * endBoard's results screen is at once replaced (README, Findings).
     * There is no guard against a second call.
     */
    method FinalizeBuzzResult(gotIt: bool) returns (ended: bool)
      requires Valid()
      requires phase == AwaitingScore && view == ClueView
      modifies this`score, this`outcomes, this`boardCats, this`usedCount, this`view
      ensures Valid()
      ensures var a := active.value;
        && score == old(score) + (if gotIt then a.value else -a.value)
        && outcomes == old(outcomes)
          + [Outcome(if gotIt then Correct else Wrong, old(boardCats[a.catIndex].name), a.value, a.clue.clue, a.clue.response)]
        && boardCats == old(boardCats)[a.catIndex := old(boardCats[a.catIndex]).(usedValues := old(boardCats[a.catIndex]).usedValues + {a.value})]
        && usedCount == old(usedCount) + (if a.value in old(boardCats[a.catIndex].usedValues) then 0 else 1)
      ensures ended <==> usedCount >= totalCells
      ensures view == ViewAfterCellResolvedAsWritten(ended)
    {
      var a := active.value;
      LogOutcome(Outcome(if gotIt then Correct else Wrong, boardCats[a.catIndex].name, a.value, a.clue.clue, a.clue.response));
      ended := ResolveCell(a.catIndex, a.value);
    }

    /** "Back to board" after the window expired: the cell is used and the board is left showing, as above. */
    method AcknowledgeNoBuzz() returns (ended: bool)
      requires Valid()
      requires phase == AwaitingAck && view == ClueView
      modifies this`boardCats, this`usedCount, this`view
      ensures Valid()
      ensures var a := active.value;
        && boardCats == old(boardCats)[a.catIndex := old(boardCats[a.catIndex]).(usedValues := old(boardCats[a.catIndex]).usedValues + {a.value})]
        && usedCount == old(usedCount) + (if a.value in old(boardCats[a.catIndex].usedValues) then 0 else 1)
      ensures ended <==> usedCount >= totalCells
      ensures view == ViewAfterCellResolvedAsWritten(ended)
    {
      var a := active.value;
      ended := ResolveCell(a.catIndex, a.value);
    }

    /**
     * The top "Back to board" button: the active cell is used with no
     * outcome logged and the clue flow left running. An active cell whose
     * column the current board no longer has makes the handler throw, and
     * nothing changes.
     */
    method BackToBoardTop() returns (ended: bool)
      requires Valid()
      modifies this`boardCats, this`usedCount, this`view
      ensures Valid()
      ensures outcomes == old(outcomes) && score == old(score) && phase == old(phase)
      ensures active.None? ==>
        && !ended && view == BoardView
        && boardCats == old(boardCats) && usedCount == old(usedCount)
      ensures active.Some? && active.value.catIndex >= |old(boardCats)| ==>
        && !ended && view == old(view)
        && boardCats == old(boardCats) && usedCount == old(usedCount)
      ensures active.Some? && active.value.catIndex < |old(boardCats)| ==>
        var a := active.value;
        && boardCats == old(boardCats)[a.catIndex := old(boardCats[a.catIndex]).(usedValues := old(boardCats[a.catIndex]).usedValues + {a.value})]
        && usedCount == old(usedCount) + (if a.value in old(boardCats[a.catIndex].usedValues) then 0 else 1)
        && (ended <==> usedCount >= totalCells)
        && view == ViewAfterCellResolvedAsWritten(ended)
    {
      ended := false;
      if active.Some? {
        var a := active.value;
        if a.catIndex >= |boardCats| {
          return;
        }
        ended := ResolveCell(a.catIndex, a.value);
        return;
      }
      view := BoardView;
    }
  }
}
