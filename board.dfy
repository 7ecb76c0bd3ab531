/** The in-memory board `categories` (jeopardy.js:1-23) and the functions that
    say what building it produces: a category built from one response
    (`getCategory`, jeopardy.js:61-80) and the board built by the setup loop
    (`setupAndStart`, jeopardy.js:183-187). */
module Board {
  import opened Js

  const NUM_CATEGORIES := 6
  const NUM_CLUES_PER_CAT := 5
  /** `getCategoryIds` draws its index as `Math.floor(Math.random() * 100)`,
      a literal 100 and not the length of the pool. */
  const ID_DRAW_RANGE := 100

  /** A clue's `showing` flag: `null`, `"question"` or `"answer"`. */
  datatype Showing = Hidden | Question | Answer

  datatype Clue = Clue(question: string, answer: string, showing: Showing)

  datatype Category = Category(title: string, clues: seq<Clue>)

  /** One element of the id pool response (`GET /categories`): only `id` is read. */
  datatype CategoryRecord = CategoryRecord(id: int)

  /** One element of a category response's `clues` (answers that are numbers
      are held as their text). */
  datatype RawClue = RawClue(question: string, answer: string)

  /** The `data` of a category response (`GET /category?id=…`). */
  datatype CategoryData = CategoryData(title: string, clues: seq<RawClue>)

  /** A sampled category id; `undefined` when the draw was past the pool's end. */
  type IdSlot = Option<int>

  /** The remote category endpoint, as seen by one run of the program. */
  type Fetch = IdSlot -> Result<CategoryData>

  /** `response.data.map(result => result.id)` (jeopardy.js:36). */
  function AllIds(records: seq<CategoryRecord>): seq<int> {
    seq(|records|, k requires 0 <= k < |records| => records[k].id)
  }

  /** `clues.map(result => ({question: result.question, answer: result.answer,
      showing: null}))` (jeopardy.js:72-76): throws a TypeError at the first
      slot that is `undefined`. */
  function WrapClues(slots: seq<Option<RawClue>>): (r: Result<seq<Clue>>)
    ensures r.Ok? <==> forall j :: 0 <= j < |slots| ==> slots[j].Some?
    ensures r.Err? ==> r.error == TypeError
    ensures r.Ok? ==> |r.value| == |slots| && forall j :: 0 <= j < |slots| ==>
      r.value[j] == Clue(slots[j].value.question, slots[j].value.answer, Hidden)
  {
    if slots == [] then Ok([])
    else match slots[0]
      case None => Err(TypeError)
      case Some(raw) =>
        match WrapClues(slots[1..])
        case Err(e) => Err(e)
        case Ok(rest) => Ok([Clue(raw.question, raw.answer, Hidden)] + rest)
  }

  /** The category `getCategory` pushes, given the response it awaited and its
      index draws; an error when the request failed or when a drawn slot is
      `undefined` (an empty clue list, or a draw out of range). */
  function BuildCategory(response: Result<CategoryData>, picks: seq<nat>): (r: Result<Category>)
    ensures response.Err? ==> r == Err(response.error)
    ensures response.Ok? ==> (r.Ok? <==> forall j :: 0 <= j < |picks| ==> picks[j] < |response.value.clues|)
    ensures response.Ok? && r.Err? ==> r.error == TypeError
    ensures r.Ok? ==> response.Ok? && r.value.title == response.value.title && |r.value.clues| == |picks|
    ensures r.Ok? ==> forall j :: 0 <= j < |picks| ==>
      var raw := response.value.clues[picks[j]];
      r.value.clues[j] == Clue(raw.question, raw.answer, Hidden)
  {
    match response
    case Err(e) => Err(e)
    case Ok(data) =>
      match WrapClues(Sample(data.clues, picks))
      case Err(e) => Err(e)
      case Ok(clues) => Ok(Category(data.title, clues))
  }

  /** With draws of `Math.floor(Math.random() * n)`, building succeeds exactly
      when the request succeeded and the clue list is not empty. */
  lemma BuildCategoryOkIff(response: Result<CategoryData>, picks: seq<nat>)
    requires |picks| == NUM_CLUES_PER_CAT
    requires response.Ok? ==> forall j :: 0 <= j < |picks| ==> IsDraw(picks[j], |response.value.clues|)
    ensures BuildCategory(response, picks).Ok? <==> response.Ok? && |response.value.clues| > 0
  {
  }

  /** The board the setup loop leaves behind, starting from `board`: one
      category appended per id, in order, stopping at the first failure
      (the categories built so far stay on the board). The old board stays a
      prefix, at most one category is added per id, and the loop passes
      exactly when every id added one. */
  function Fill(board: seq<Category>, catIds: seq<IdSlot>, fetch: Fetch, cluePicks: seq<seq<nat>>)
    : (r: (seq<Category>, Outcome))
    requires |cluePicks| == |catIds|
    ensures |board| <= |r.0| <= |board| + |catIds| && r.0[..|board|] == board
    ensures r.1 == Pass <==> |r.0| == |board| + |catIds|
    decreases |catIds|
  {
    if catIds == [] then (board, Pass)
    else
      match BuildCategory(fetch(catIds[0]), cluePicks[0])
      case Err(e) => (board, Fail(e))
      case Ok(c) => Fill(board + [c], catIds[1..], fetch, cluePicks[1..])
  }

  /** What `Fill` leaves: the old board, then the categories built for the
      first ids in order; it passes exactly when every id was built, and
      otherwise stops at the id whose building failed, with that failure. */
  lemma {:induction false} FillBoard(board: seq<Category>, catIds: seq<IdSlot>, fetch: Fetch, cluePicks: seq<seq<nat>>)
    requires |cluePicks| == |catIds|
    ensures var (b, o) := Fill(board, catIds, fetch, cluePicks);
      |board| <= |b| <= |board| + |catIds| && b[..|board|] == board &&
      (forall k :: 0 <= k < |b| - |board| ==>
        BuildCategory(fetch(catIds[k]), cluePicks[k]) == Ok(b[|board| + k])) &&
      (o == Pass <==> |b| == |board| + |catIds|) &&
      (o.Fail? ==> BuildCategory(fetch(catIds[|b| - |board|]), cluePicks[|b| - |board|]) == Err(o.error))
    decreases |catIds|
  {
    if catIds != [] {
      match BuildCategory(fetch(catIds[0]), cluePicks[0])
      case Err(e) =>
      case Ok(c) =>
        FillBoard(board + [c], catIds[1..], fetch, cluePicks[1..]);
        var (b, o) := Fill(board + [c], catIds[1..], fetch, cluePicks[1..]);
        assert b[..|board|] == (b[..|board| + 1])[..|board|];
        forall k | 0 <= k < |b| - |board|
          ensures BuildCategory(fetch(catIds[k]), cluePicks[k]) == Ok(b[|board| + k])
        {
          if k == 0 {
            assert b[|board|] == (b[..|board| + 1])[|board|];
          } else {
            assert catIds[1..][k - 1] == catIds[k] && cluePicks[1..][k - 1] == cluePicks[k];
          }
        }
        if o.Fail? {
          var n := |b| - |board|;
          assert catIds[1..][n - 1] == catIds[n] && cluePicks[1..][n - 1] == cluePicks[n];
        }
    }
  }

  /** Every category has exactly `NUM_CLUES_PER_CAT` clues. */
  predicate WellFormed(board: seq<Category>) {
    forall i :: 0 <= i < |board| ==> |board[i].clues| == NUM_CLUES_PER_CAT
  }

  /** No clue has been revealed. */
  predicate AllHidden(board: seq<Category>) {
    forall i, j :: 0 <= i < |board| && 0 <= j < |board[i].clues| ==> board[i].clues[j].showing == Hidden
  }

  /** The board built by the setup loop from an empty board: every category
      on it is well formed and unrevealed, the k-th comes from the k-th id's
      response and its clues from that response's clue list; the loop passes
      exactly when every category could be built, and then the board holds
      one category per id. */
  lemma SetupBoard(catIds: seq<IdSlot>, fetch: Fetch, cluePicks: seq<seq<nat>>)
    requires |catIds| == NUM_CATEGORIES && |cluePicks| == NUM_CATEGORIES
    requires forall k :: 0 <= k < |cluePicks| ==> |cluePicks[k]| == NUM_CLUES_PER_CAT
    ensures var (b, o) := Fill([], catIds, fetch, cluePicks);
      WellFormed(b) && AllHidden(b) && |b| <= NUM_CATEGORIES &&
      (o == Pass <==> forall k :: 0 <= k < NUM_CATEGORIES ==> BuildCategory(fetch(catIds[k]), cluePicks[k]).Ok?) &&
      (o == Pass ==> |b| == NUM_CATEGORIES) &&
      (forall k :: 0 <= k < |b| ==>
        (fetch(catIds[k]).Ok? && b[k].title == fetch(catIds[k]).value.title &&
         forall j :: 0 <= j < NUM_CLUES_PER_CAT ==>
           var raw := fetch(catIds[k]).value.clues;
           cluePicks[k][j] < |raw| &&
           b[k].clues[j].question == raw[cluePicks[k][j]].question &&
           b[k].clues[j].answer == raw[cluePicks[k][j]].answer))
  {
    FillBoard([], catIds, fetch, cluePicks);
    var (b, o) := Fill([], catIds, fetch, cluePicks);
    assert forall k :: 0 <= k < |b| ==> BuildCategory(fetch(catIds[k]), cluePicks[k]) == Ok(b[k]);
  }

  /** With in-range draws, setup passes exactly when every request succeeds
      with a non-empty clue list. */
  lemma SetupPassesIff(catIds: seq<IdSlot>, fetch: Fetch, cluePicks: seq<seq<nat>>)
    requires |catIds| == NUM_CATEGORIES && |cluePicks| == NUM_CATEGORIES
    requires forall k :: 0 <= k < |cluePicks| ==> |cluePicks[k]| == NUM_CLUES_PER_CAT
    requires forall k :: 0 <= k < NUM_CATEGORIES ==> fetch(catIds[k]).Ok? ==>
      forall j :: 0 <= j < NUM_CLUES_PER_CAT ==> IsDraw(cluePicks[k][j], |fetch(catIds[k]).value.clues|)
    ensures Fill([], catIds, fetch, cluePicks).1 == Pass <==>
      forall k :: 0 <= k < NUM_CATEGORIES ==> fetch(catIds[k]).Ok? && |fetch(catIds[k]).value.clues| > 0
  {
    SetupBoard(catIds, fetch, cluePicks);
    forall k | 0 <= k < NUM_CATEGORIES
      ensures BuildCategory(fetch(catIds[k]), cluePicks[k]).Ok? <==>
        fetch(catIds[k]).Ok? && |fetch(catIds[k]).value.clues| > 0
    {
      BuildCategoryOkIff(fetch(catIds[k]), cluePicks[k]);
    }
  }

  /** The board with clue (x, y) replaced by `c`; every title, every other
      clue and the shape of the board stay as they were. */
  function SetClue(board: seq<Category>, x: nat, y: nat, c: Clue): (b: seq<Category>)
    requires x < |board| && y < |board[x].clues|
    ensures |b| == |board|
    ensures forall i :: 0 <= i < |b| ==> b[i].title == board[i].title && |b[i].clues| == |board[i].clues|
    ensures b[x].clues[y] == c
    ensures forall i, j :: 0 <= i < |b| && 0 <= j < |b[i].clues| && (i, j) != (x, y) ==>
      b[i].clues[j] == board[i].clues[j]
  {
    board[x := board[x].(clues := board[x].clues[y := c])]
  }
}
