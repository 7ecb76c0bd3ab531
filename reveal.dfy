/** The reveal state machine of `handleClick` (jeopardy.js:119-152): a click
    on a clue shows its question, the next click its answer, and later
    clicks are ignored. */
module Reveal {
  import opened Js
  import opened CellIds
  import opened Board

  /** What a click puts in the cell: a text, or nothing (the click is ignored). */
  datatype Reaction = Display(text: string) | Ignore

  /** How far a clue has been revealed. */
  function Rank(s: Showing): nat {
    match s
    case Hidden => 0
    case Question => 1
    case Answer => 2
  }

  /** One click on a clue: the clue afterwards and what the cell shows. The
      flag moves one step forward and stays at `"answer"`; the texts never
      change; a text is shown exactly when the flag moved, and it is the side
      of the clue the new flag names. */
  function Reveal(c: Clue): (r: (Clue, Reaction))
    ensures r.0.question == c.question && r.0.answer == c.answer
    ensures Rank(r.0.showing) == if c.showing == Answer then 2 else Rank(c.showing) + 1
    ensures r.1.Display? <==> c.showing != Answer
    ensures r.1.Display? ==> r.1.text == if r.0.showing == Question then c.question else c.answer
    ensures r.1 == Ignore ==> r.0 == c
  {
    match c.showing
    case Hidden => (c.(showing := Question), Display(c.question))
    case Question => (c.(showing := Answer), Display(c.answer))
    case Answer => (c, Ignore)
  }

  /** The clue after `n` clicks. */
  function Clicks(c: Clue, n: nat): Clue {
    if n == 0 then c else Reveal(Clicks(c, n - 1)).0
  }

  /** What each of `n` clicks shows, in order. */
  function Reactions(c: Clue, n: nat): (rs: seq<Reaction>)
    ensures |rs| == n
  {
    if n == 0 then [] else Reactions(c, n - 1) + [Reveal(Clicks(c, n - 1)).1]
  }

  /** From a fresh clue, the flag runs null, "question", "answer", "answer", …
      and the question and answer texts stay put. */
  lemma {:induction false} ClickStates(c: Clue, n: nat)
    requires c.showing == Hidden
    ensures Clicks(c, n).question == c.question && Clicks(c, n).answer == c.answer
    ensures Clicks(c, n).showing == if n == 0 then Hidden else if n == 1 then Question else Answer
  {
    if n > 0 {
      ClickStates(c, n - 1);
    }
  }

  /** From a fresh clue, the first click shows the question, the second the
      answer, and every later click is ignored. */
  lemma {:induction false} ClickReactions(c: Clue, n: nat)
    requires c.showing == Hidden
    ensures forall i :: 0 <= i < n ==>
      Reactions(c, n)[i] == if i == 0 then Display(c.question) else if i == 1 then Display(c.answer) else Ignore
  {
    if n > 0 {
      ClickReactions(c, n - 1);
      ClickStates(c, n - 1);
      assert Reactions(c, n)[..n - 1] == Reactions(c, n - 1);
    }
  }

  /** Once the answer shows, the clue is fixed: any number of further clicks
      change nothing and show nothing. */
  lemma {:induction false} AnswerIsTerminal(c: Clue, n: nat)
    requires c.showing == Answer
    ensures Clicks(c, n) == c
    ensures forall i :: 0 <= i < n ==> Reactions(c, n)[i] == Ignore
  {
    if n > 0 {
      AnswerIsTerminal(c, n - 1);
      assert Reactions(c, n)[..n - 1] == Reactions(c, n - 1);
    }
  }

  /** Whether cell (x, y) holds a clue of the board. */
  predicate OnBoard(board: seq<Category>, x: nat, y: nat) {
    x < |board| && y < |board[x].clues|
  }

  /** A click on the cell with id `id`: the new board and what the cell shows.
      A TypeError, with the board untouched, when the id addresses no clue
      (`categories[x]` or `.clues[y]` is `undefined`); otherwise only the
      addressed clue changes, as `Reveal` says. */
  function Click(board: seq<Category>, id: string): (r: (seq<Category>, Result<Reaction>))
    ensures r.1.Err? <==> CellOf(id).None? || !OnBoard(board, CellOf(id).value.0, CellOf(id).value.1)
    ensures r.1.Err? ==> r.1.error == TypeError && r.0 == board
    ensures r.1.Ok? ==> var (x, y) := CellOf(id).value;
      r.0 == SetClue(board, x, y, Reveal(board[x].clues[y]).0) && r.1.value == Reveal(board[x].clues[y]).1
  {
    match CellOf(id)
    case None => (board, Err(TypeError))
    case Some((x, y)) =>
      if OnBoard(board, x, y) then
        var (c, shown) := Reveal(board[x].clues[y]);
        (SetClue(board, x, y, c), Ok(shown))
      else (board, Err(TypeError))
  }

  /** A click keeps the board's shape, every title and every question and
      answer text, and moves no clue backwards. */
  lemma ClickPreserves(board: seq<Category>, id: string)
    ensures var b := Click(board, id).0;
      |b| == |board| &&
      (forall i :: 0 <= i < |b| ==> b[i].title == board[i].title && |b[i].clues| == |board[i].clues|) &&
      (forall i, j :: 0 <= i < |b| && 0 <= j < |b[i].clues| ==>
        b[i].clues[j].question == board[i].clues[j].question &&
        b[i].clues[j].answer == board[i].clues[j].answer &&
        Rank(b[i].clues[j].showing) >= Rank(board[i].clues[j].showing))
  {
  }

  /** A click on a cell of the rendered table (column x, row y) reaches the
      clue it was created for and never throws. */
  lemma ClickOnCell(board: seq<Category>, x: nat, y: nat)
    requires OnBoard(board, x, y)
    ensures var c := board[x].clues[y];
      Click(board, CellId(x, y)) == (SetClue(board, x, y, Reveal(c).0), Ok(Reveal(c).1))
  {
    CellIdRoundTrip(x, y);
  }

  /** Every cell the table renders for a full board addresses a clue. */
  lemma RenderedCellsOnBoard(board: seq<Category>, x: nat, y: nat)
    requires |board| == NUM_CATEGORIES && WellFormed(board)
    requires x < NUM_CATEGORIES && y < NUM_CLUES_PER_CAT
    ensures Click(board, CellId(x, y)).1.Ok?
  {
    ClickOnCell(board, x, y);
  }
}
