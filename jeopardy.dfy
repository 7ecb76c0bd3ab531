/** The program's state and the operations that change it (jeopardy.js):
    the global `categories` board, filled by `getCategory` and
    `setupAndStart` and updated in place by `handleClick`. The two HTTP
    endpoints are given as their responses (`pool` and `fetch`), and each
    `Math.floor(Math.random() * n)` as a caller-supplied natural. */
module Jeopardy {
  import opened Js
  import opened CellIds
  import opened Board
  import opened Reveal

  /** `getCategoryIds` (jeopardy.js:31-47): one pool element per draw, in
      order; a draw past the pool's end reads `undefined`. A failed pool
      request rejects. */
  method GetCategoryIds(pool: Result<seq<CategoryRecord>>, picks: seq<nat>) returns (r: Result<seq<IdSlot>>)
    requires |picks| == NUM_CATEGORIES
    requires forall k :: 0 <= k < |picks| ==> picks[k] < ID_DRAW_RANGE
    ensures pool.Err? ==> r == Err(pool.error)
    ensures pool.Ok? ==> r.Ok? && |r.value| == NUM_CATEGORIES
    ensures pool.Ok? ==> forall k :: 0 <= k < NUM_CATEGORIES ==>
      r.value[k] == if picks[k] < |pool.value| then Some(pool.value[picks[k]].id) else None
    ensures pool.Ok? && |pool.value| >= ID_DRAW_RANGE ==> forall k :: 0 <= k < NUM_CATEGORIES ==>
      r.value[k].Some? && exists i :: 0 <= i < ID_DRAW_RANGE && r.value[k].value == pool.value[i].id
  {
    if pool.Err? {
      return Err(pool.error);
    }
    var allIds := AllIds(pool.value);
    var catIds: seq<IdSlot> := [];
    for x := 0 to NUM_CATEGORIES
      invariant |catIds| == x
      invariant forall k :: 0 <= k < x ==> catIds[k] == Lookup(allIds, picks[k])
    {
      catIds := catIds + [Lookup(allIds, picks[x])];
    }
    r := Ok(catIds);
  }

  class Game {
    /** The board, `categories` (jeopardy.js:21). */
    var categories: seq<Category>

    constructor ()
      ensures categories == []
    {
      categories := [];
    }

    /** `getCategory` (jeopardy.js:61-80): awaits the category's response,
        draws `NUM_CLUES_PER_CAT` clues with replacement, and pushes the
        new category onto the board, returning the board. Throws, leaving
        the board as it was, when the request fails or a drawn clue is
        `undefined`. */
    method GetCategory(catId: IdSlot, fetch: Fetch, picks: seq<nat>) returns (r: Result<seq<Category>>)
      requires |picks| == NUM_CLUES_PER_CAT
      modifies this
      ensures var built := BuildCategory(fetch(catId), picks);
        if built.Ok? then categories == old(categories) + [built.value] && r == Ok(categories)
        else categories == old(categories) && r == Err(built.error)
    {
      var response := fetch(catId);
      if response.Err? {
        return Err(response.error);
      }
      var data := response.value;
      var clues: seq<Option<RawClue>> := [];
      for y := 0 to NUM_CLUES_PER_CAT
        invariant |clues| == y
        invariant forall j :: 0 <= j < y ==> clues[j] == Lookup(data.clues, picks[j])
      {
        clues := clues + [Lookup(data.clues, picks[y])];
      }
      assert clues == Sample(data.clues, picks);
      var clueArray := WrapClues(clues);
      if clueArray.Err? {
        return Err(clueArray.error);
      }
      categories := categories + [Category(data.title, clueArray.value)];
      r := Ok(categories);
    }

    /** The board-building part of `setupAndStart` (jeopardy.js:178-192):
        sample the ids, reset the board, then build one category per id in
        order, stopping at the first failure. A failed pool request rejects
        before the reset, so the old board stays. */
    method SetupAndStart(pool: Result<seq<CategoryRecord>>, idPicks: seq<nat>, fetch: Fetch, cluePicks: seq<seq<nat>>)
      returns (r: Outcome)
      requires |idPicks| == NUM_CATEGORIES
      requires forall k :: 0 <= k < |idPicks| ==> idPicks[k] < ID_DRAW_RANGE
      requires |cluePicks| == NUM_CATEGORIES
      requires forall k :: 0 <= k < |cluePicks| ==> |cluePicks[k]| == NUM_CLUES_PER_CAT
      modifies this
      ensures pool.Err? ==> r == Fail(pool.error) && categories == old(categories)
      ensures pool.Ok? ==> (categories, r) == Fill([], Sample(AllIds(pool.value), idPicks), fetch, cluePicks)
    {
      var ids := GetCategoryIds(pool, idPicks);
      if ids.Err? {
        return Fail(ids.error);
      }
      var catIds := ids.value;
      assert catIds == Sample(AllIds(pool.value), idPicks);
      ghost var goal := Fill([], catIds, fetch, cluePicks);
      categories := [];
      var k := 0;
      while k < |catIds|
        invariant 0 <= k <= |catIds|
        invariant Fill(categories, catIds[k..], fetch, cluePicks[k..]) == goal
      {
        assert catIds[k..][0] == catIds[k] && cluePicks[k..][0] == cluePicks[k];
        assert catIds[k..][1..] == catIds[k + 1..] && cluePicks[k..][1..] == cluePicks[k + 1..];
        var step := GetCategory(catIds[k], fetch, cluePicks[k]);
        if step.Err? {
          return Fail(step.error);
        }
        k := k + 1;
      }
      assert catIds[k..] == [];
      r := Pass;
    }

    /** `handleClick` (jeopardy.js:127-152) on the cell with id `id`: splits
        the id, reads the clue and steps its `showing` flag, returning what
        the cell is to show. */
    method HandleClick(id: string) returns (r: Result<Reaction>)
      modifies this
      ensures (categories, r) == Click(old(categories), id)
    {
      var parts := Split(id, '-');
      var x := IndexKey(parts[0]);
      var y := if |parts| > 1 then IndexKey(parts[1]) else None;
      assert CellOf(id) == if x.Some? && y.Some? then Some((x.value, y.value)) else None;
      if x.None? || x.value >= |categories| {
        // `categories[x]` is undefined: reading `.clues` throws
        return Err(TypeError);
      }
      var clues := categories[x.value].clues;
      if y.None? || y.value >= |clues| {
        // `clues[y]` is undefined: reading `.showing` throws
        return Err(TypeError);
      }
      var clue := clues[y.value];
      if clue.showing == Hidden {
        r := Ok(Display(clue.question));
        categories := SetClue(categories, x.value, y.value, clue.(showing := Question));
      } else if clue.showing == Question {
        r := Ok(Display(clue.answer));
        categories := SetClue(categories, x.value, y.value, clue.(showing := Answer));
      } else {
        // already showing the answer: the click is ignored
        assert clues[y.value := clue] == clues;
        assert SetClue(categories, x.value, y.value, clue) == categories;
        r := Ok(Ignore);
      }
    }
  }

  /** A board of one category holding the clue {question: "2+2", answer: "4"}:
      three clicks on cell "0-0" show "2+2", then "4", then nothing. */
  method ClickScenario() {
    var game := new Game();
    var fetch: Fetch := _ => Ok(CategoryData("Math", [RawClue("2+2", "4")]));
    var built := game.GetCategory(Some(1), fetch, [0, 0, 0, 0, 0]);
    assert built.Ok? && |game.categories| == 1;
    assert game.categories[0].clues[0] == Clue("2+2", "4", Hidden);
    assert CellId(0, 0) == "0-0";
    CellIdRoundTrip(0, 0);
    var first := game.HandleClick("0-0");
    assert first == Ok(Display("2+2"));
    assert game.categories[0].clues[0].showing == Question;
    var second := game.HandleClick("0-0");
    assert second == Ok(Display("4"));
    assert game.categories[0].clues[0].showing == Answer;
    var third := game.HandleClick("0-0");
    assert third == Ok(Ignore);
    assert game.categories[0].clues[0].showing == Answer;
  }
}
